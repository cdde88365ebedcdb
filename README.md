# Task lifecycle of the TMS task controller, in Dafny

This project models the task controller of a small task-tracking web
application (`app/Http/Controllers/Frontend/TaskController.php`). Users create
tasks, list them page by page, edit them, soft-delete and restore them, and
search for users to assign. The controller works directly on the `tasks`
table. The model keeps that table as a `TaskController` class holding a
`map<int, Task>` (rows by id), the row order and the auto-increment counter.
Its methods change the table in place, and each is proved equal to a pure
transition function over the map. The properties of those functions are
proved as contracts and lemmas.

Files:

- `wrappers.dfy`: `Option` and `Result`.
- `tasks.dfy`: the stored task row. Also PHP's `implode(',', …)` and its inverse `explode`.
- `validation.dfy`: the rule set of `store`, with Laravel's `required`, `string`, `array`, `date` and `max` rules.
- `users.dfy`: the user search behind the assignee dropdown (`getUsers`) and lookup by id.
- `lifecycle.dfy`: what create, update, delete and restore answer, and how they leave the table.
- `listing.dfy`: the row projection, the action buttons, the page number and pagination of `getTasksList`.
- `task_controller.dfy`: the `TaskController` class.

Modelling choices:

- The acting user (`Auth::id()`) is an explicit `actor` parameter.
- Each JSON answer is a `Response` value. The values are `Success`,
  `ValidationFailed` (HTTP 422 with the per-field error report),
  `NotAuthorized`, `AlreadyDeleted` and `NotFound` (the `findOrFail` miss that
  the `catch` blocks turn into an error answer).
- Status is the stored string. The controller only compares it with
  `'deleted'` and only writes `'deleted'` or `'active'`. A new row gets the
  table's column default, which is a constructor parameter of the class:
  `store` does not set a status, so nothing is claimed about it.
- The `date` rule is a parameter `isDate: string -> bool`. Whether a string
  parses as a date is decided by the framework's date parser.
- The assignee name in a listing row comes from a left join that compares
  the comma-joined `assign_to` text with integer user ids. The result depends
  on the database's coercion rules, so the join is a parameter
  `assigneeName`. The creator name is a lookup by id in the users table.
- Delete refuses an already-deleted task, but restore has no matching
  already-active guard. The model keeps this asymmetry.
- New tasks are not promised the status `active`. Only the column default
  gives them one.
- The search does not fold case. Whether SQL `LIKE` ignores case depends on
  the collation, so the model uses plain substring containment.
- The model computes a page number only when the length divides the offset.

## Model

| member | source | states |
|---|---|---|
| `Tasks.ExplodeImplode` | app/Http/Controllers/Frontend/TaskController.php:75 | the comma-joined `assign_to` splits back into the submitted assignee list when no assignee contains a comma |
| `Validation.FailedRules` | app/Http/Controllers/Frontend/TaskController.php:58-66 | a field fails no rule exactly when it passes every rule of its rule list; a failed `required` is reported alone; once `required` passes, every other rule the value fails is reported (no `bail`) |
| `Validation.ErrorsOver` | app/Http/Controllers/Frontend/TaskController.php:58-66 | the error report names a field exactly when that field fails one of its rules, with the rules it failed |
| `Validation.NoErrorsIffAllPass` | app/Http/Controllers/Frontend/TaskController.php:58-66 | the error report is empty if and only if all seven fields pass all their rules |
| `Validation.PassingShape` | app/Http/Controllers/Frontend/TaskController.php:58-66 | a passing payload has string title and flag of at most 255 characters, string description and priority, a non-empty assignee array, and two dates |
| `Validation.Validate` | app/Http/Controllers/Frontend/TaskController.php:58-66 | the validated payload exists if and only if every field passes; otherwise the report is non-empty and lists exactly the failing fields; the validated values are the request's own |
| `Users.Contains` | app/Http/Controllers/Frontend/TaskController.php:37-38 | `LIKE '%q%'` holds exactly when `q` occurs at some position of the string |
| `Users.Matching` | app/Http/Controllers/Frontend/TaskController.php:37-38 | keeps exactly the users whose name or user type contains the query |
| `Users.GetUsers` | app/Http/Controllers/Frontend/TaskController.php:32-41 | the first ten users in table order whose name or user type contains the query, or all of them when fewer match |
| `Users.EmptyQueryMatchesAll` | app/Http/Controllers/Frontend/TaskController.php:32-41 | a missing query returns all users, up to ten |
| `Users.FindUser` | app/Http/Controllers/Frontend/TaskController.php:248 | finds a user with the id when one exists, and nothing only when none does |
| `Users.NameOf` | app/Http/Controllers/Frontend/TaskController.php:131 | the left join on the creator id yields a name exactly when some user has that id, and the name is that user's |
| `Lifecycle.Create` | app/Http/Controllers/Frontend/TaskController.php:58-96 | succeeds if and only if every field passes every rule; a failing payload answers 422 with its report and adds nothing; a passing one adds exactly one row under the fresh id, with the request's values, comma-joined assignees, creator and owner the acting user, the default status, and every other row unchanged |
| `Lifecycle.CreatedAssigneesRoundTrip` | app/Http/Controllers/Frontend/TaskController.php:75 | the stored `assign_to` of a created task decodes to the submitted ids |
| `Lifecycle.Update` | app/Http/Controllers/Frontend/TaskController.php:259-281 | an unknown or missing id answers not-found and a non-creator not-authorised, both with the table unchanged; success only for the creator, with no row added or removed and every other row unchanged |
| `Lifecycle.UpdateSetsSevenFields` | app/Http/Controllers/Frontend/TaskController.php:266-276 | the creator's update sets exactly title, description, assignees, dates, flag and priority, and keeps id, creator, owner and status |
| `Lifecycle.Delete` | app/Http/Controllers/Frontend/TaskController.php:294-307 | succeeds if and only if the task exists, the actor created it and it is not deleted; success sets only its status to `'deleted'`; every other answer leaves the table unchanged |
| `Lifecycle.DeleteChecksCreatorFirst` | app/Http/Controllers/Frontend/TaskController.php:295-303 | a non-creator is refused as not authorised even when the task is already deleted |
| `Lifecycle.DeleteOfDeletedConflicts` | app/Http/Controllers/Frontend/TaskController.php:301-303 | the creator deleting a deleted task is told it is already deleted, and nothing changes |
| `Lifecycle.DeleteTwice` | app/Http/Controllers/Frontend/TaskController.php:301-307 | after a successful delete a second delete reports already deleted and the status stays `'deleted'` |
| `Lifecycle.Restore` | app/Http/Controllers/Frontend/TaskController.php:321-334 | succeeds if and only if the task exists and the actor created it, whatever the status; success sets only its status to `'active'`; failures change nothing |
| `Lifecycle.RestoreIdempotent` | app/Http/Controllers/Frontend/TaskController.php:321-334 | restoring twice gives the same answer and table as restoring once |
| `Lifecycle.RestoreUndoesDelete` | app/Http/Controllers/Frontend/TaskController.php:304-330 | deleting an active task and then restoring it gives back the original table |
| `Lifecycle.StrangerChangesNothing` | app/Http/Controllers/Frontend/TaskController.php:262-264 | update, delete and restore by a user who is not the creator all answer not-authorised with the table unchanged |
| `Lifecycle.NoHardDeleteAndCreatorFixed` | app/Http/Controllers/Frontend/TaskController.php:259-334 | no operation removes a row or changes its creator; the status changes only to `'deleted'` by delete or `'active'` by restore |
| `Listing.ActionsFor` | app/Http/Controllers/Frontend/TaskController.php:162-174 | View and Edit always; Delete if and only if the status is not `'deleted'`, Restore if and only if it is |
| `Listing.TaskRow` | app/Http/Controllers/Frontend/TaskController.php:187-199 | every row has exactly 11 cells, cell `k` showing what column `k` of the table stands for |
| `Listing.DisplayColumnsMatchRows` | app/Http/Controllers/Frontend/TaskController.php:218-230 | the column metadata of the table view has one entry per row cell, entry `k` reading cell `k` under the header of column `k` |
| `Listing.ActionsCellByStatus` | app/Http/Controllers/Frontend/TaskController.php:152-198 | the last cell of each row is the actions cell of that task, with Delete or Restore by status |
| `Listing.PageNumber` | app/Http/Controllers/Frontend/TaskController.php:121-123 | the 1-based page whose first row is row `start` |
| `Listing.Page` | app/Http/Controllers/Frontend/TaskController.php:146 | a page holds at most `length` rows, namely the rows from its offset on, in order |
| `Listing.PagesArePrefix` | app/Http/Controllers/Frontend/TaskController.php:146 | the first `n` pages together are the first `n * length` rows |
| `Listing.PagesCoverAll` | app/Http/Controllers/Frontend/TaskController.php:146 | reading pages until they pass the last row reproduces every task exactly once, in table order |
| `Listing.ListPage` | app/Http/Controllers/Frontend/TaskController.php:115-210 | both record counts are the number of rows; the data are the joined rows from `start` on, at most `length` of them, 11 cells each |
| `Frontend.TaskController.Rows` | app/Http/Controllers/Frontend/TaskController.php:128-146 | the table's rows in table order, one per task |
| `Frontend.TaskController.Store` | app/Http/Controllers/Frontend/TaskController.php:49-106 | keeps the table invariant; answer and new table are those of `Create` with the next auto-increment id, appended at the end of the row order |
| `Frontend.TaskController.GetTaskById` | app/Http/Controllers/Frontend/TaskController.php:245-253 | finds a row exactly when the id is in the table, deleted tasks included, with the user whose id is the row's owner |
| `Frontend.TaskController.UpdateTask` | app/Http/Controllers/Frontend/TaskController.php:255-283 | keeps the table invariant; answer and new table are those of `Update` |
| `Frontend.TaskController.DeleteTask` | app/Http/Controllers/Frontend/TaskController.php:291-314 | keeps the table invariant; answer and new table are those of `Delete` |
| `Frontend.TaskController.RestoreTask` | app/Http/Controllers/Frontend/TaskController.php:317-336 | keeps the table invariant; answer and new table are those of `Restore` |
| `Frontend.TaskController.GetTasksList` | app/Http/Controllers/Frontend/TaskController.php:115-211 | both counts are the number of tasks; the data are the joined rows of the tasks from row `start` on, exactly `length` of them or all that remain |

## Left out

- The generic `catch (\Exception)` answers for database failures are not modelled: `store`'s "failed" answer with `act: TERMINATE`, and the `Log::error` call in `deleteTask`. Each operation is assumed to reach the database successfully. A `findOrFail` miss is modelled, as `NotFound`.
- Timestamps (`created_at`, `updated_at`) are not modelled. Neither are the events or observers a save triggers.
- HTML button markup is reduced to a sequence of `Action` values. The JSON envelope and message texts are reduced to `Response` values.
- `index` and the view rendering of `display` are not modelled. So is the user list that `display` passes to the view. The column metadata of `display` is modelled.
- Authentication and session state are not modelled. The acting user is a parameter.
- Concurrent requests are not modelled. Each operation runs atomically.
- Validation covers only string, array and absent inputs. Non-string scalars in a JSON body, and request middleware that trims strings or turns them into null, are not modelled.
- Whether a string is a valid date is a parameter, because the framework's date parser decides it.
- `Users.Contains`: SQL `LIKE` wildcards (`%`, `_`) inside the query are matched literally, and case folding by the collation is not modelled.
- `Users.GetUsers`: the result is the first matches in table order. The database promises no order.
- `Frontend.TaskController.Rows`, `Listing.ListPage`: the listing query has no ORDER BY, so the database promises no row order, nor the same order from one page request to the next. The model lists rows in insertion order. `Listing.PagesCoverAll` (every task exactly once across pages) holds only under that fixed order.
- `Lifecycle.Update`: the request values are strings. A missing or array value would be written as null or make the save fail in the database. That is not modelled.
- `Listing.ListPage`: only a positive length that divides the offset is modelled, so that the page number is whole. PHP's float page number for other offsets is not modelled.
- `Listing.JoinedRow`: the assignee name is a parameter, because the join compares the comma-joined `assign_to` string with integer ids under database coercion rules.
- `Frontend.TaskController.GetTaskById`: the `user` relation is taken to be the owner (`user_id`) relation. The Task model class is not part of this model.
- The initial status of a new task comes from a migration that is not part of this model.
- `app/Models/Role.php` and the roles migration hold only relationship declarations and a schema change. They have no behaviour to model.
