# Dependency-based task execution: a Dafny model

This project models the core of a small task-execution API. Creators post
tasks that may depend on other tasks. Executors claim a task and move it
through its statuses, and only once every task it depends on is completed.
Two authentication middlewares pick a session token and gate the routes by
role.

The model consists of these modules:

- `Common` (`common.dfy`): `Option`, `Result`, an order-keeping `Filter`, and
  the subsequence relation.
- `JsString` (`js_string.dfy`): the JavaScript string behaviour the code
  relies on. This covers truthiness, `split` with a one-character separator,
  `startsWith`, `trim`, indexing a split field, and the code-point order in
  which stored strings are sorted.
- `TaskModel` (`task_model.dfy`): the task record, with its status and
  priority enums, stored names, defaults and optional fields. The class
  `TaskDocument` holds the `pre('save')` hook that stamps the completion date.
- `TaskQueries` (`task_queries.dfy`): the read side of the controller and its
  failure outcomes. It covers:
  - dependency resolution (what `populate` yields; dangling references are dropped);
  - the availability filter;
  - the listings and their sort orders;
  - the status filter;
  - lookup by id;
  - the two-level dependency graph.
- `TaskController` (`task_controller.dfy`): the state-changing handlers.
  - Each check chain is a pure function: `ExecutionGuard` and `UpdateGuard`.
  - Each write is a pure function: `NewTask`, `ApplyExecution` and `MergeDetails`.
  - The class `TaskStore` holds the records in a `map`. It also keeps the
    insertion order and the next id.
  - Its methods `Create`, `Execute` and `Update` apply the check chain and
    then write in place.
- `Session` (`session.dfy`): what happens after a token is chosen. This covers
  verification, the user lookup and the two role gates. Both middleware files
  define these identically.
- `AuthMiddleware` (`auth_middleware.dfy`): token extraction in
  `middleware/authMiddleware.js`. The order is Bearer header, then the parsed
  cookie, then a loop over the raw Cookie header that stops at the first
  `token=` entry.
- `TaskRouterAuth` (`task_router_auth.dfy`): token selection in
  `Middleware/authMiddleware.js`, the variant the task router imports. The
  cookie comes first, then the second field of the Authorization header.

The outside world enters only as parameters:
- The clock is a `now: Timestamp` argument.
- `jwt.verify` with the server's secret is a function `verify: string -> Option<UserId>`, where `None` stands for a thrown error.
- The user collection is a `map<UserId, User>`.
- Ids are natural numbers assigned in creation order.

## Model

| member | source | states |
|---|---|---|
| TaskModel.ParseStatus | Models/taskModel.js:11-15 | a string names a status exactly when it is one of the four enum strings, and the parsed status is stored under that name |
| TaskModel.ParseStatusName | Models/taskModel.js:11-15 | every status round-trips through its stored name |
| TaskModel.ParsePriority | Models/taskModel.js:39-43 | a string names a priority exactly when it is one of the three enum strings |
| TaskModel.ParsePriorityName | Models/taskModel.js:39-43 | every priority round-trips through its stored name |
| TaskModel.TaskDocument.PreSave | Models/taskModel.js:47-52 | the completion date becomes `now` iff the status was modified and is completed; otherwise the record is unchanged |
| TaskQueries.IncompleteDependencies | controllers/taskController.js:93-96 | the reported ids are the dependency list filtered to the resolved ones whose status is not completed (same order, every occurrence kept), each reported with its stored status |
| TaskQueries.NoneIncompleteIffAllCompleted | controllers/taskController.js:93-98 | nothing is reported iff every resolved dependency is completed |
| TaskQueries.IncompleteDependenciesMembers | controllers/taskController.js:94-96 | every reported entry is a resolved, not completed dependency with its stored status, and every such dependency is reported |
| TaskQueries.IncompleteDependenciesCounts | controllers/taskController.js:94-96 | a blocking id is reported as often as the dependency list holds it, any other id never |
| TaskQueries.DanglingDependenciesIgnored | controllers/taskController.js:75-76 | a dependency id without a stored record never blocks execution, because populate drops it |
| TaskQueries.AvailableTasks | controllers/taskController.js:164-173 | a task is listed iff it is a candidate with no executor, status pending, and every resolved dependency completed (an empty list passes); candidate order is kept |
| TaskQueries.WaitsForItsDependency | controllers/taskController.js:170-173 | a pending unassigned task with one stored dependency is available exactly when that dependency is completed |
| TaskQueries.PriorityRankIsStringOrder | controllers/taskController.js:281 | the rank used for the priority sort agrees with the code-point order of the stored strings "high" < "low" < "medium" |
| TaskQueries.Insert | controllers/taskController.js:281 | inserting into a sorted sequence keeps it sorted and adds exactly one element |
| TaskQueries.Sort | controllers/taskController.js:43 | the result is sorted descending by the order's key, then by createdAt, and is a permutation of the input |
| TaskQueries.PriorityOrderIsNotSemantic | controllers/taskController.js:281 | in a priority-sorted result, a high-priority task is only followed by high ones, and a low one never by a medium one |
| TaskQueries.AllTasks | controllers/taskController.js:36-49 | every stored task, with multiplicity, newest first |
| TaskQueries.CreatorTasks | controllers/taskController.js:132-145 | exactly the tasks created by the user, with multiplicity, newest first |
| TaskQueries.ExecutorTasks | controllers/taskController.js:147-159 | exactly the tasks the user holds as executor, with multiplicity, newest first |
| TaskQueries.TasksByStatus | controllers/taskController.js:268-287 | refused with InvalidStatus iff the status is outside the four-value list; otherwise exactly the tasks with that status, sorted by priority string descending and then newest first |
| TaskQueries.TaskById | controllers/taskController.js:51-68 | the stored task for a known id, NotFound otherwise |
| TaskQueries.Present | controllers/taskController.js:232-248 | the references that populate resolves: only stored ids, every stored one kept, order kept |
| TaskQueries.PresentCounts | controllers/taskController.js:232-248 | each stored id is kept as often as the list holds it, and a dangling id never |
| TaskQueries.Summaries | controllers/taskController.js:235 | each resolved reference as (id, title, status), position by position |
| TaskQueries.Neighbours | controllers/taskController.js:233-248 | each direct neighbour with its summary and the summaries of its own resolved dependencies |
| TaskQueries.GraphOf | controllers/taskController.js:228-266 | NotFound iff the id is missing; otherwise the task's (id, title, status) together with its resolved dependencies and dependents, each with one further level of dependencies |
| TaskQueries.PresentIgnoresOtherIds | controllers/taskController.js:232-248 | what a reference list resolves to does not depend on tasks it does not name |
| TaskQueries.NeighboursIgnoreOtherIds | controllers/taskController.js:236-239 | the neighbour entries do not depend on any task that is neither a neighbour nor a dependency of one |
| TaskQueries.GraphIgnoresDeeperTasks | controllers/taskController.js:232-248 | the graph is exactly two levels deep: changing or adding any task beyond the second level leaves it unchanged |
| TaskQueries.NoReverseEdgesNoDependents | controllers/taskController.js:241-248 | a task with no stored dependents shows an empty dependents list |
| TaskController.NewTask | controllers/taskController.js:4-34 | accepted iff the title is non-empty and a given priority is in the enum. The record is pending and unassigned, created by the actor, stamped `now`, and has `[]` as its dependencies when the input is not an array. The priority is medium when the input priority is falsy |
| TaskController.CreationAcceptsAnyDependencies | controllers/taskController.js:10-19 | creation checks nothing about dependencies: a task may list its own id |
| TaskController.NewTaskWithoutDependenciesIsAvailable | controllers/taskController.js:10-19 | a task created without dependencies is immediately available |
| TaskController.ExecutionGuard | controllers/taskController.js:78-108 | the first failing check wins, in the order NotFound, Forbidden (role is not executor), AlreadyAssigned (held by another executor), incomplete dependencies; the reported list is exactly the incomplete dependencies; no failure iff all checks pass |
| TaskController.ApplyExecution | controllers/taskController.js:111-117 | the write sets the requested status and the actor as executor, and bumps updatedAt. The completion date is set to `now` iff the status is completed and is left as it was otherwise. Nothing else changes |
| TaskController.ExecutorGateImpliesRoleCheck | controllers/taskController.js:83-85 | a request that passed the executor gate never fails the controller's role check |
| TaskController.HolderMayResubmit | controllers/taskController.js:75-117 | the executor holding a task may execute it again whatever its current status |
| TaskController.CompletionDateOutlivesCompletion | controllers/taskController.js:116 | reopening a completed task keeps its old completion date |
| TaskController.AvailableTasksAreExecutable | controllers/taskController.js:164-173 | every listed available task passes every execution check for any executor |
| TaskController.SelfDependencyBlocksExecution | controllers/taskController.js:93-107 | a task that depends on itself fails with its own entry in the incomplete list until it is completed |
| TaskController.UpdateGuard | controllers/taskController.js:192-205 | the first failing check wins, in the order NotFound, Forbidden (the actor is not the creator), NotPending; no failure iff the actor created the task and it is pending |
| TaskController.StartedTasksAreFrozen | controllers/taskController.js:202-205 | nobody can update the details of a task that is no longer pending |
| TaskController.MergeDetails | controllers/taskController.js:207-214 | each of title, description, priority and estimatedTime takes the given value when it is truthy and keeps the stored one otherwise. updatedAt becomes `now` and nothing else changes |
| TaskController.MergeIdempotent | controllers/taskController.js:207-214 | applying the same update twice equals applying it once |
| TaskController.MergeCannotClear | controllers/taskController.js:210-213 | an update never clears a non-empty title, description or estimate |
| TaskController.TaskStore.Rows | controllers/taskController.js:38 | the stored records in insertion order |
| TaskController.TaskStore.Create | controllers/taskController.js:12-19 | either stores the new record under a fresh id and appends it to the order, or stores nothing; the store invariant is kept and no dependents are written |
| TaskController.TaskStore.Execute | controllers/taskController.js:70-130 | on a guard failure returns it with the store unchanged; otherwise replaces exactly the one record with the execution write. Tasks held by other executors and every creator are untouched |
| TaskController.TaskStore.Update | controllers/taskController.js:187-226 | on a guard failure returns it with the store unchanged; otherwise replaces exactly the one record with the merged details. No status, executor or creator changes anywhere |
| Session.Authenticate | Middleware/authMiddleware.js:7-22 | 401 NoToken iff the token is missing or empty; InvalidToken iff it does not verify; UserNotFound iff its user is gone; otherwise authenticated as that user |
| Session.RoleGates | Middleware/authMiddleware.js:25-39 | the creator gate passes iff a user is present with role "creator", and the executor gate iff role "executor"; no user passes both and a missing user passes neither |
| AuthMiddleware.CookieEntries | middleware/authMiddleware.js:24 | the raw header split on ';' with each entry trimmed, one entry per field |
| AuthMiddleware.FirstTokenEntry | middleware/authMiddleware.js:25-31 | the position of the first entry starting with "token=", with no such entry before it |
| AuthMiddleware.FirstTokenCookie | middleware/authMiddleware.js:25-31 | no token iff no entry starts with "token="; otherwise the token is the text after "token=" in the first entry that starts with it |
| AuthMiddleware.RequestToken | middleware/authMiddleware.js:10-32 | a "Bearer " header gives the text after "Bearer " up to the next space; otherwise a non-empty parsed cookie; otherwise the first "token=" value of the raw header; otherwise nothing |
| AuthMiddleware.FindTokenEntry | middleware/authMiddleware.js:25-31 | the loop with break yields the value after "token=" of the first entry that starts with it, or nothing |
| AuthMiddleware.ScanCookieHeader | middleware/authMiddleware.js:21-31 | the fallback scan yields the first "token=" value among the trimmed entries of the raw header, or nothing |
| AuthMiddleware.ExtractToken | middleware/authMiddleware.js:7-32 | the if/else-if chain picks the Bearer header, then the parsed cookie, then the raw-header scan |
| AuthMiddleware.Authorize | middleware/authMiddleware.js:36-59 | the request is refused with NoToken iff no source gave a non-empty token; otherwise the token is verified and its user looked up |
| AuthMiddleware.BearerField | middleware/authMiddleware.js:11 | the token is the word after "Bearer " |
| AuthMiddleware.BearerHeaderWins | middleware/authMiddleware.js:10-13 | a Bearer header wins over both cookie sources |
| AuthMiddleware.EmptyBearerIsNotSkipped | middleware/authMiddleware.js:10-13 | a bare "Bearer " header is still chosen, so the request gets 401 whatever its cookies hold |
| AuthMiddleware.CookieWithoutBearer | middleware/authMiddleware.js:16-18 | without a Bearer header a non-empty parsed cookie is used |
| AuthMiddleware.FirstDuplicateWins | middleware/authMiddleware.js:23-30 | after any entries that are not tokens, the first "token=a" entry decides even when a later "token=b" duplicate follows |
| AuthMiddleware.TokenEntryTrims | middleware/authMiddleware.js:24 | a leading space does not survive the trim of an entry |
| AuthMiddleware.TrimmedEntryFound | middleware/authMiddleware.js:24-27 | " token=v" in the raw header yields v |
| AuthMiddleware.RawHeaderFallback | middleware/authMiddleware.js:21-31 | a request with no Bearer header and no parsed cookie takes its token from the raw Cookie header |
| TaskRouterAuth.SelectToken | Middleware/authMiddleware.js:5 | a non-empty cookie wins; otherwise the header yields a token iff it contains a space, and the token is its second space-separated field (from the first space to the next one or the end) |
| TaskRouterAuth.TaskAuth | Middleware/authMiddleware.js:4-23 | 401 NoToken iff the selected token is missing or empty; authenticated iff the token verifies to a stored user, who is then the request's user |
| TaskRouterAuth.PrecedenceReversed | Middleware/authMiddleware.js:5 | with both a cookie and a Bearer header, the account routes take the header's token and the task routes take the cookie |
| TaskRouterAuth.NoBearerCheck | Middleware/authMiddleware.js:5 | "Basic x" yields x for the task routes but no token for the account routes |
| TaskRouterAuth.NoTokenRefused | Middleware/authMiddleware.js:7-9 | without a non-empty cookie or a header the task routes answer 401 NoToken |
| JsString.Split | middleware/authMiddleware.js:24 | at least one field, and no field contains the separator |
| JsString.JoinSplit | middleware/authMiddleware.js:24 | joining the fields again gives back the original string |
| JsString.SplitFieldCount | Middleware/authMiddleware.js:5 | the split has one field more than the string has separators |
| JsString.SecondField | Middleware/authMiddleware.js:5 | a string holding the separator has a second field, and it is the text between the first separator and the next one (or the end) |
| JsString.SecondFieldUnique | Middleware/authMiddleware.js:5 | that description of the second field admits exactly one string |
| JsString.Trim | middleware/authMiddleware.js:24 | no whitespace at either end, and the result is a slice of the input with only whitespace around it |
| JsString.TrimLeadingSpace | middleware/authMiddleware.js:24 | trimming a space followed by an already trimmed string gives that string |
| JsString.TrimIdempotent | middleware/authMiddleware.js:24 | trimming twice is trimming once |

## Left out

- Database plumbing: `populate` projections (user names and emails), the
  `.select` field lists and 500 responses from database errors are not
  modelled. `populate` is modelled as a lookup in the store map that drops ids
  with no record.
- `findByIdAndUpdate` runs no `pre('save')` hook. In the model, the only call of
  `PreSave` is in `Create`, and it changes nothing there because a new task is
  pending. The completion date on execution comes from the handler's own stamp
  at `controllers/taskController.js:116`.
- The `new: true` option of `findByIdAndUpdate` is not modelled separately:
  the returned record is always the updated one.
- `findByIdAndUpdate` runs no schema validators. So a status or priority
  string outside its enum in an execute or update body would be stored as
  given. The model only admits enum values in those bodies.
- TaskController.MergeDetails: the priority is typed as an enum, so the falsy
  empty string case of the body is folded into "not given".
- The read-check-write race in `executeTask`: each operation is modelled as
  one atomic step.
- The clock is a parameter. `jwt.verify`, `jwt.sign`, cookie setting and
  password hashing are abstract functions. `controllers/authController.js`,
  `Utils/generateToken.js` and `userModel.js` are not part of this model.
- HTTP framing: status codes and JSON bodies are modelled as outcome
  datatypes. All `console.log` output is left out.
- `server.js` and the routers are left out. The router does decide which
  middleware guards each route: the task routes use
  `Middleware/authMiddleware.js`.
- `testEndpoint` is left out because it holds no logic.
- The gates in `middleware/authMiddleware.js:62-86` are the same as those in
  `Middleware/authMiddleware.js:25-39`. Both are modelled once in `Session`.
- `estimatedTime` is a `real`: NaN and the other number edge cases of
  JavaScript are not modelled.
- JsString.Trim covers the ECMAScript whitespace and line-terminator
  characters listed in `IsWhitespace`. Strings are sequences of characters,
  not UTF-16 code units.
- Where the answers to the two middlewares' errors differ only in the message
  text, the model keeps only the kind of failure.
- The payload of the incomplete-dependency failure carries each dependency's
  id and status but no title. The title is undefined there, because the
  dependencies are populated with the status field alone
  (`controllers/taskController.js:75-76`).
- No operation writes `dependentTasks`, so dependents are never maintained.
  The graph's dependents list is whatever the store holds (always empty for
  tasks created through the controller).
- Re-executing a completed task with another status keeps its old completion
  date: the completion date is never cleared.
- A non-creator gets Forbidden before a non-pending task gets NotPending.
  This follows the order of the checks in the code.
