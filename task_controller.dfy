/** The task controller (App\Http\Controllers\Frontend\TaskController) over
    the tasks table it reads and writes. The table is a map from id to row,
    its row order, and its auto-increment counter; each request runs to
    completion on its own. */
module Frontend {
  import opened Wrappers
  import opened Tasks
  import opened Validation
  import opened Users
  import opened Lifecycle
  import opened Listing

  /** A task with the user its `user` relation loads. */
  datatype TaskDetail = TaskDetail(task: Task, user: Option<User>)

  /** Distinct ids in increasing order are as many as the set they form. */
  lemma {:induction false} IncreasingCardinality(s: seq<int>)
    requires forall i, j :: 0 <= i < j < |s| ==> s[i] < s[j]
    ensures |set x | x in s| == |s|
  {
    if |s| > 0 {
      IncreasingCardinality(s[1..]);
      assert (set x | x in s) == {s[0]} + (set x | x in s[1..]);
      assert s[0] !in (set x | x in s[1..]);
    }
  }

  class TaskController {
    /** The rows of the tasks table, by id. */
    var tasks: map<int, Task>
    /** The ids in the table's row order: the order of insertion. */
    var order: seq<int>
    /** The id the next inserted row receives. */
    var nextId: int
    /** The status a new row receives from the table's column default. */
    const defaultStatus: string

    /** Ids are unique, match their rows, are listed once each in increasing
        order, and lie below the next id to hand out. */
    ghost predicate Valid()
      reads this
    {
      && (forall i, j :: 0 <= i < j < |order| ==> order[i] < order[j])
      && (forall id :: id in tasks <==> id in order)
      && (forall k :: 0 <= k < |order| ==> order[k] in tasks)
      && (forall id :: id in tasks ==> tasks[id].id == id && id < nextId)
    }

    constructor (defaultStatus: string)
      ensures Valid()
      ensures tasks == map[] && order == [] && this.defaultStatus == defaultStatus
    {
      tasks := map[];
      order := [];
      nextId := 1;
      this.defaultStatus := defaultStatus;
    }

    /** The rows in table order. */
    function Rows(): (rows: seq<Task>)
      reads this
      requires Valid()
      ensures |rows| == |order| == |tasks|
      ensures forall k :: 0 <= k < |rows| ==> rows[k] == tasks[order[k]]
    {
      IncreasingCardinality(order);
      assert forall x :: x in tasks.Keys <==> x in order;
      assert tasks.Keys == set x | x in order;
      var table, ids := tasks, order;
      seq(|ids|, k requires 0 <= k < |ids| => table[ids[k]])
    }

    /** `store`: a failing payload answers with its error report and inserts
        nothing; a passing one inserts exactly one row at the end of the
        table under a fresh id. */
    method Store(req: CreateRequest, actor: int, isDate: string -> bool) returns (res: Response)
      requires Valid()
      modifies this
      ensures Valid()
      ensures Outcome(res, tasks) == Create(old(tasks), old(nextId), req, actor, isDate, defaultStatus)
      ensures old(nextId) !in old(tasks)
      ensures res == Success ==> order == old(order) + [old(nextId)] && nextId == old(nextId) + 1
      ensures res != Success ==> order == old(order) && nextId == old(nextId)
    {
      var validated := Validate(req, isDate);
      if validated.Err? {
        return ValidationFailed(validated.error);
      }
      var task := NewTask(nextId, validated.value, actor, defaultStatus);
      assert forall k :: 0 <= k < |order| ==> order[k] < nextId;
      tasks := tasks[nextId := task];
      order := order + [nextId];
      nextId := nextId + 1;
      res := Success;
    }

    /** `getTaskById`: the row with its user, for deleted tasks as well;
        nothing when no row has the id. */
    function GetTaskById(id: int, users: seq<User>): (r: Option<TaskDetail>)
      reads this
      ensures r.Some? <==> id in tasks
      ensures r.Some? ==> r.value.task == tasks[id]
      ensures r.Some? && r.value.user.Some? ==>
        r.value.user.value in users && r.value.user.value.id == tasks[id].userId
      ensures r.Some? && r.value.user.None? ==> forall u :: u in users ==> u.id != tasks[id].userId
    {
      if id in tasks then Some(TaskDetail(tasks[id], FindUser(users, tasks[id].userId))) else None
    }

    /** `updateTask`: overwrites the seven fields of the creator's own task. */
    method UpdateTask(req: UpdateRequest, actor: int) returns (res: Response)
      requires Valid()
      modifies this
      ensures Valid()
      ensures Outcome(res, tasks) == Update(old(tasks), req, actor)
      ensures order == old(order) && nextId == old(nextId)
    {
      if req.id.None? || req.id.value !in tasks {
        return NotFound;
      }
      var task := tasks[req.id.value];
      if task.taskCreatedBy != actor {
        return NotAuthorized;
      }
      task := task.(title := req.title);
      task := task.(taskDescription := req.taskDescription);
      task := task.(assignTo := req.assignTo);
      task := task.(startDate := req.startDate);
      task := task.(endDate := req.endDate);
      task := task.(flag := req.flag);
      task := task.(priority := req.priority);
      tasks := tasks[req.id.value := task];
      res := Success;
    }

    /** `deleteTask`: marks the creator's own task deleted, once. */
    method DeleteTask(id: int, actor: int) returns (res: Response)
      requires Valid()
      modifies this
      ensures Valid()
      ensures Outcome(res, tasks) == Delete(old(tasks), id, actor)
      ensures order == old(order) && nextId == old(nextId)
    {
      if id !in tasks {
        return NotFound;
      }
      var task := tasks[id];
      if task.taskCreatedBy != actor {
        return NotAuthorized;
      }
      if task.status == DELETED {
        return AlreadyDeleted;
      }
      task := task.(status := DELETED);
      tasks := tasks[id := task];
      res := Success;
    }

    /** `restoreTask`: marks the creator's own task active, whatever its
        status was. */
    method RestoreTask(id: int, actor: int) returns (res: Response)
      requires Valid()
      modifies this
      ensures Valid()
      ensures Outcome(res, tasks) == Restore(old(tasks), id, actor)
      ensures order == old(order) && nextId == old(nextId)
    {
      if id !in tasks {
        return NotFound;
      }
      var task := tasks[id];
      if task.taskCreatedBy != actor {
        return NotAuthorized;
      }
      task := task.(status := ACTIVE);
      tasks := tasks[id := task];
      res := Success;
    }

    /** `getTasksList`: one page of rows in table order, with the count of
        all rows, deleted ones included. */
    function GetTasksList(users: seq<User>, assigneeName: string -> Option<string>,
                          start: Option<int>, length: Option<int>): (resp: ListResponse)
      reads this
      requires Valid()
      requires WholePage(start, length)
      ensures resp.recordsTotal == resp.recordsFiltered == |tasks|
      ensures |resp.data| <= LengthOf(length)
      ensures |resp.data| == if StartOf(start) >= |order| then 0 else Min(LengthOf(length), |order| - StartOf(start))
      ensures forall k :: 0 <= k < |resp.data| ==>
        StartOf(start) + k < |order| &&
        resp.data[k] == JoinedRow(tasks[order[StartOf(start) + k]], users, assigneeName)
    {
      ListPage(Rows(), users, assigneeName, start, length)
    }
  }
}
