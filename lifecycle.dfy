/** What each lifecycle operation of the task controller answers and how it
    leaves the tasks table, stated over the table as a map from task id to
    row. The acting user (`Auth::id()`) is an explicit parameter. */
module Lifecycle {
  import opened Wrappers
  import opened Tasks
  import opened Validation

  /** The JSON outcome of an operation, by kind. */
  datatype Response =
    | Success
    | ValidationFailed(errors: seq<FieldError>)  // HTTP 422 with the error report
    | NotAuthorized                              // the acting user is not the creator
    | AlreadyDeleted                             // delete of a deleted task
    | NotFound                                   // `findOrFail` found no row

  datatype Outcome = Outcome(response: Response, tasks: map<int, Task>)

  /** The request `updateTask` reads: the task id, if given, and the seven
      values it writes. */
  datatype UpdateRequest = UpdateRequest(
    id: Option<int>,
    title: string,
    taskDescription: string,
    assignTo: string,
    startDate: string,
    endDate: string,
    flag: string,
    priority: string)

  /** The row `Task::create` inserts: assignees comma-joined, creator and
      owner both the acting user, status the table's default. */
  function NewTask(id: int, v: Validated, actor: int, defaultStatus: string): Task
  {
    Task(id, v.title, v.taskDescription, Implode(v.assignTo), actor,
         v.startDate, v.endDate, v.flag, v.priority, defaultStatus, actor)
  }

  /** `store`: validate, then insert one row under the fresh id `id`. */
  function Create(tasks: map<int, Task>, id: int, req: CreateRequest, actor: int,
                  isDate: string -> bool, defaultStatus: string): (o: Outcome)
    ensures Validate(req, isDate).Err? ==>
      o == Outcome(ValidationFailed(Validate(req, isDate).error), tasks)
    ensures o.response.ValidationFailed? ==> o.response.errors != [] && o.tasks == tasks
    ensures o.response == Success || o.response.ValidationFailed?
    ensures o.response == Success <==> forall f :: FieldPasses(req, f, isDate)
    ensures o.response == Success ==>
      && o.tasks.Keys == tasks.Keys + {id}
      && (forall k :: k in tasks && k != id ==> o.tasks[k] == tasks[k])
      && o.tasks[id].id == id
      && Str(o.tasks[id].title) == req.title
      && Str(o.tasks[id].taskDescription) == req.taskDescription
      && req.assignTo.Arr? && |req.assignTo.items| > 0
      && o.tasks[id].assignTo == Implode(req.assignTo.items)
      && Str(o.tasks[id].startDate) == req.startDate
      && Str(o.tasks[id].endDate) == req.endDate
      && Str(o.tasks[id].flag) == req.flag
      && Str(o.tasks[id].priority) == req.priority
      && o.tasks[id].taskCreatedBy == actor && o.tasks[id].userId == actor
      && o.tasks[id].status == defaultStatus
  {
    match Validate(req, isDate)
    case Err(errors) => Outcome(ValidationFailed(errors), tasks)
    case Ok(v) => Outcome(Success, tasks[id := NewTask(id, v, actor, defaultStatus)])
  }

  /** The `assign_to` column of a created task decodes back to the submitted
      assignee ids when none of them contains a comma. */
  lemma CreatedAssigneesRoundTrip(tasks: map<int, Task>, id: int, req: CreateRequest, actor: int,
                                  isDate: string -> bool, defaultStatus: string)
    requires Create(tasks, id, req, actor, isDate, defaultStatus).response == Success
    requires req.assignTo.Arr? && forall k :: 0 <= k < |req.assignTo.items| ==> ',' !in req.assignTo.items[k]
    ensures Explode(Create(tasks, id, req, actor, isDate, defaultStatus).tasks[id].assignTo) == req.assignTo.items
  {
    ExplodeImplode(req.assignTo.items);
  }

  /** `updateTask`: only the creator may overwrite the seven fields; the id,
      the creator, the owner and the status stay as they were. */
  function Update(tasks: map<int, Task>, req: UpdateRequest, actor: int): (o: Outcome)
    ensures req.id.None? || req.id.value !in tasks ==> o == Outcome(NotFound, tasks)
    ensures req.id.Some? && req.id.value in tasks && tasks[req.id.value].taskCreatedBy != actor ==>
      o == Outcome(NotAuthorized, tasks)
    ensures o.response == Success || o.tasks == tasks
    ensures o.response == Success ==>
      && req.id.Some? && req.id.value in tasks
      && tasks[req.id.value].taskCreatedBy == actor
      && o.tasks.Keys == tasks.Keys
      && (forall k :: k in tasks && k != req.id.value ==> o.tasks[k] == tasks[k])
  {
    if req.id.None? || req.id.value !in tasks then Outcome(NotFound, tasks)
    else
      var task := tasks[req.id.value];
      if task.taskCreatedBy != actor then Outcome(NotAuthorized, tasks)
      else
        Outcome(Success, tasks[req.id.value := task.(
          title := req.title,
          taskDescription := req.taskDescription,
          assignTo := req.assignTo,
          startDate := req.startDate,
          endDate := req.endDate,
          flag := req.flag,
          priority := req.priority)])
  }

  /** A successful update by the creator sets exactly the seven request
      values and keeps the id, creator, owner and status. */
  lemma UpdateSetsSevenFields(tasks: map<int, Task>, req: UpdateRequest, actor: int)
    requires req.id.Some? && req.id.value in tasks && tasks[req.id.value].taskCreatedBy == actor
    ensures Update(tasks, req, actor).response == Success
    ensures
      var before := tasks[req.id.value];
      var after := Update(tasks, req, actor).tasks[req.id.value];
      && after.title == req.title && after.taskDescription == req.taskDescription
      && after.assignTo == req.assignTo && after.startDate == req.startDate
      && after.endDate == req.endDate && after.flag == req.flag && after.priority == req.priority
      && after.id == before.id && after.taskCreatedBy == before.taskCreatedBy
      && after.status == before.status && after.userId == before.userId
  {
  }

  /** `deleteTask`: only the creator may act, and only on a task that is not
      already deleted; a successful delete writes the status `'deleted'`. */
  function Delete(tasks: map<int, Task>, id: int, actor: int): (o: Outcome)
    ensures id !in tasks ==> o == Outcome(NotFound, tasks)
    ensures o.response == Success || o.tasks == tasks
    ensures o.response == Success <==>
      id in tasks && tasks[id].taskCreatedBy == actor && tasks[id].status != DELETED
    ensures o.response == Success ==>
      && o.tasks.Keys == tasks.Keys
      && o.tasks[id] == tasks[id].(status := DELETED)
      && (forall k :: k in tasks && k != id ==> o.tasks[k] == tasks[k])
  {
    if id !in tasks then Outcome(NotFound, tasks)
    else
      var task := tasks[id];
      if task.taskCreatedBy != actor then Outcome(NotAuthorized, tasks)
      else if task.status == DELETED then Outcome(AlreadyDeleted, tasks)
      else Outcome(Success, tasks[id := task.(status := DELETED)])
  }

  /** The creator check comes before the already-deleted check: a stranger
      deleting a deleted task is told it is not authorised. */
  lemma DeleteChecksCreatorFirst(tasks: map<int, Task>, id: int, actor: int)
    requires id in tasks && tasks[id].taskCreatedBy != actor
    ensures Delete(tasks, id, actor) == Outcome(NotAuthorized, tasks)
  {
  }

  /** The creator deleting an already deleted task gets a conflict and the
      table stays as it was. */
  lemma DeleteOfDeletedConflicts(tasks: map<int, Task>, id: int, actor: int)
    requires id in tasks && tasks[id].taskCreatedBy == actor && tasks[id].status == DELETED
    ensures Delete(tasks, id, actor) == Outcome(AlreadyDeleted, tasks)
  {
  }

  /** Deleting twice: the first call succeeds, the second reports the task
      already deleted and changes nothing. */
  lemma DeleteTwice(tasks: map<int, Task>, id: int, actor: int)
    requires Delete(tasks, id, actor).response == Success
    ensures
      var once := Delete(tasks, id, actor).tasks;
      Delete(once, id, actor) == Outcome(AlreadyDeleted, once) && once[id].status == DELETED
  {
  }

  /** `restoreTask`: only the creator may act, and then the status becomes
      `'active'` whatever it was; there is no already-active guard. */
  function Restore(tasks: map<int, Task>, id: int, actor: int): (o: Outcome)
    ensures id !in tasks ==> o == Outcome(NotFound, tasks)
    ensures o.response == Success || o.tasks == tasks
    ensures o.response == Success <==> id in tasks && tasks[id].taskCreatedBy == actor
    ensures o.response == Success ==>
      && o.tasks.Keys == tasks.Keys
      && o.tasks[id] == tasks[id].(status := ACTIVE)
      && (forall k :: k in tasks && k != id ==> o.tasks[k] == tasks[k])
  {
    if id !in tasks then Outcome(NotFound, tasks)
    else
      var task := tasks[id];
      if task.taskCreatedBy != actor then Outcome(NotAuthorized, tasks)
      else Outcome(Success, tasks[id := task.(status := ACTIVE)])
  }

  /** Restoring is idempotent: a second restore succeeds again and leaves the
      table as the first one left it. */
  lemma RestoreIdempotent(tasks: map<int, Task>, id: int, actor: int)
    ensures
      var first := Restore(tasks, id, actor);
      Restore(first.tasks, id, actor) == first
  {
  }

  /** Restore undoes a delete: deleting an active task and restoring it gives
      back the table as it was. */
  lemma RestoreUndoesDelete(tasks: map<int, Task>, id: int, actor: int)
    requires id in tasks && tasks[id].status == ACTIVE
    requires Delete(tasks, id, actor).response == Success
    ensures Restore(Delete(tasks, id, actor).tasks, id, actor) == Outcome(Success, tasks)
  {
  }

  /** Every operation by a user who did not create the task answers with an
      error and leaves the table unchanged. */
  lemma StrangerChangesNothing(tasks: map<int, Task>, id: int, req: UpdateRequest, actor: int)
    requires id in tasks && tasks[id].taskCreatedBy != actor
    requires req.id == Some(id)
    ensures Update(tasks, req, actor) == Outcome(NotAuthorized, tasks)
    ensures Delete(tasks, id, actor) == Outcome(NotAuthorized, tasks)
    ensures Restore(tasks, id, actor) == Outcome(NotAuthorized, tasks)
  {
  }

  /** No operation removes a task or changes who created it; the status only
      ever changes to `'deleted'` (by delete) or `'active'` (by restore). */
  lemma NoHardDeleteAndCreatorFixed(tasks: map<int, Task>, id: int, req: UpdateRequest, actor: int)
    ensures forall k :: k in tasks ==>
      && k in Update(tasks, req, actor).tasks
      && Update(tasks, req, actor).tasks[k].taskCreatedBy == tasks[k].taskCreatedBy
      && Update(tasks, req, actor).tasks[k].status == tasks[k].status
    ensures forall k :: k in tasks ==>
      && k in Delete(tasks, id, actor).tasks
      && Delete(tasks, id, actor).tasks[k].taskCreatedBy == tasks[k].taskCreatedBy
      && Delete(tasks, id, actor).tasks[k].status in {tasks[k].status, DELETED}
    ensures forall k :: k in tasks ==>
      && k in Restore(tasks, id, actor).tasks
      && Restore(tasks, id, actor).tasks[k].taskCreatedBy == tasks[k].taskCreatedBy
      && Restore(tasks, id, actor).tasks[k].status in {tasks[k].status, ACTIVE}
  {
  }
}
