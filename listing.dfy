/** The task table page `getTasksList` returns: each row projected onto the
    eleven columns `display` declares, with the action buttons chosen by
    status, and the page picked out by DataTables' `start`/`length`. */
module Listing {
  import opened Wrappers
  import opened Tasks
  import opened Users

  /** The buttons of the actions cell. */
  datatype Action = ViewButton | EditButton | DeleteButton | RestoreButton

  /** One cell of a row; a name the left join did not resolve is null. */
  datatype Cell =
    | IdCell(id: int)
    | TextCell(text: string)
    | NullCell
    | ActionsCell(taskId: int, actions: seq<Action>)

  datatype Column =
    | IdColumn | TitleColumn | DescriptionColumn | AssignToColumn | CreatedByColumn
    | StartDateColumn | EndDateColumn | FlagColumn | PriorityColumn | StatusColumn | ActionsColumn

  /** The column order of the table. */
  const COLUMNS: seq<Column> := [
    IdColumn, TitleColumn, DescriptionColumn, AssignToColumn, CreatedByColumn,
    StartDateColumn, EndDateColumn, FlagColumn, PriorityColumn, StatusColumn, ActionsColumn]

  /** The header `display` gives each column. */
  function Header(c: Column): string
  {
    match c
    case IdColumn => "#ID"
    case TitleColumn => "Title"
    case DescriptionColumn => "Task Description"
    case AssignToColumn => "Assign To"
    case CreatedByColumn => "Task Created By "
    case StartDateColumn => "Start Date"
    case EndDateColumn => "End Date"
    case FlagColumn => "Flag"
    case PriorityColumn => "Priority"
    case StatusColumn => "Status"
    case ActionsColumn => "Actions"
  }

  /** A DataTables column: its header and the row index it shows. */
  datatype ColumnMeta = ColumnMeta(title: string, data: nat)

  /** The column metadata `display` hands to the table view. */
  function DisplayColumns(): seq<ColumnMeta>
  {
    [ ColumnMeta("#ID", 0), ColumnMeta("Title", 1), ColumnMeta("Task Description", 2),
      ColumnMeta("Assign To", 3), ColumnMeta("Task Created By ", 4), ColumnMeta("Start Date", 5),
      ColumnMeta("End Date", 6), ColumnMeta("Flag", 7), ColumnMeta("Priority", 8),
      ColumnMeta("Status", 9), ColumnMeta("Actions", 10) ]
  }

  /** The buttons offered for a task: View and Edit always, then Delete while
      the task is not deleted and Restore once it is. */
  function ActionsFor(status: string): (a: seq<Action>)
    ensures |a| == 3 && a[0] == ViewButton && a[1] == EditButton
    ensures DeleteButton in a <==> status != DELETED
    ensures RestoreButton in a <==> status == DELETED
  {
    [ViewButton, EditButton] + if status != DELETED then [DeleteButton] else [RestoreButton]
  }

  function NameCell(name: Option<string>): Cell
  {
    match name
    case Some(n) => TextCell(n)
    case None => NullCell
  }

  /** What a column shows of a task joined with its two display names. */
  function CellFor(t: Task, assignName: Option<string>, creatorName: Option<string>, c: Column): Cell
  {
    match c
    case IdColumn => IdCell(t.id)
    case TitleColumn => TextCell(t.title)
    case DescriptionColumn => TextCell(t.taskDescription)
    case AssignToColumn => NameCell(assignName)
    case CreatedByColumn => NameCell(creatorName)
    case StartDateColumn => TextCell(t.startDate)
    case EndDateColumn => TextCell(t.endDate)
    case FlagColumn => TextCell(t.flag)
    case PriorityColumn => TextCell(t.priority)
    case StatusColumn => TextCell(t.status)
    case ActionsColumn => ActionsCell(t.id, ActionsFor(t.status))
  }

  /** The row the `map` closure of `getTasksList` builds for one task. */
  function TaskRow(t: Task, assignName: Option<string>, creatorName: Option<string>): (row: seq<Cell>)
    ensures |row| == |COLUMNS| == 11
    ensures forall k :: 0 <= k < |row| ==> row[k] == CellFor(t, assignName, creatorName, COLUMNS[k])
  {
    [ IdCell(t.id), TextCell(t.title), TextCell(t.taskDescription),
      NameCell(assignName), NameCell(creatorName),
      TextCell(t.startDate), TextCell(t.endDate), TextCell(t.flag), TextCell(t.priority),
      TextCell(t.status), ActionsCell(t.id, ActionsFor(t.status)) ]
  }

  /** The table's column metadata lines up with the rows: column `k` is
      headed by the title of the `k`-th column and reads cell `k`. */
  lemma DisplayColumnsMatchRows(t: Task, assignName: Option<string>, creatorName: Option<string>)
    ensures |DisplayColumns()| == |TaskRow(t, assignName, creatorName)|
    ensures forall k :: 0 <= k < |DisplayColumns()| ==>
      && DisplayColumns()[k].data == k
      && DisplayColumns()[k].title == Header(COLUMNS[k])
  {
  }

  /** The last cell of every row offers View and Edit, and Delete exactly
      when the task is not deleted, Restore otherwise. */
  lemma ActionsCellByStatus(t: Task, assignName: Option<string>, creatorName: Option<string>)
    ensures
      var cell := TaskRow(t, assignName, creatorName)[10];
      && cell.ActionsCell? && cell.taskId == t.id
      && ViewButton in cell.actions && EditButton in cell.actions
      && (DeleteButton in cell.actions <==> t.status != DELETED)
      && (RestoreButton in cell.actions <==> t.status == DELETED)
  {
    assert COLUMNS[10] == ActionsColumn;
  }

  function Min(a: int, b: int): int
  {
    if a <= b then a else b
  }

  /** The paging parameters with their defaults: `start` 0, `length` 10. */
  function StartOf(start: Option<int>): int { OrElse(start, 0) }
  function LengthOf(length: Option<int>): int { OrElse(length, 10) }

  /** Paging the model covers: a positive length that divides the offset, so
      that PHP's division yields a whole page number. */
  predicate WholePage(start: Option<int>, length: Option<int>)
  {
    LengthOf(length) > 0 && StartOf(start) >= 0 && StartOf(start) % LengthOf(length) == 0
  }

  /** `$page = ($start / $length) + 1`: the 1-based page whose first row is
      row `start`. */
  function PageNumber(start: int, length: int): (page: int)
    requires length > 0 && start >= 0 && start % length == 0
    ensures page >= 1 && (page - 1) * length == start
  {
    start / length + 1
  }

  /** `paginate`: the rows of page `page` of size `perPage`. */
  function Page<T>(rows: seq<T>, page: int, perPage: int): (r: seq<T>)
    requires page >= 1 && perPage > 0
    ensures |r| <= perPage
    ensures forall k :: 0 <= k < |r| ==> (page - 1) * perPage + k < |rows| && r[k] == rows[(page - 1) * perPage + k]
    ensures |r| == if (page - 1) * perPage >= |rows| then 0 else Min(perPage, |rows| - (page - 1) * perPage)
  {
    var offset := (page - 1) * perPage;
    rows[Min(offset, |rows|)..Min(offset + perPage, |rows|)]
  }

  /** Pages 1 to `n`, one after the other. */
  function Pages<T>(rows: seq<T>, perPage: int, n: nat): seq<T>
    requires perPage > 0
  {
    if n == 0 then [] else Pages(rows, perPage, n - 1) + Page(rows, n, perPage)
  }

  /** The first `n` pages are exactly the first `n * perPage` rows. */
  lemma {:induction false} PagesArePrefix<T>(rows: seq<T>, perPage: int, n: nat)
    requires perPage > 0
    ensures Pages(rows, perPage, n) == rows[..Min(n * perPage, |rows|)]
  {
    if n > 0 {
      PagesArePrefix(rows, perPage, n - 1);
      var offset := (n - 1) * perPage;
      assert n * perPage == offset + perPage;
      var p := Page(rows, n, perPage);
      assert p == rows[Min(offset, |rows|)..Min(offset + perPage, |rows|)];
      assert rows[..Min(offset, |rows|)] + p == rows[..Min(offset + perPage, |rows|)];
    }
  }

  /** Reading page after page until the pages reach past the last row
      reproduces every task exactly once, in table order. */
  lemma PagesCoverAll<T>(rows: seq<T>, perPage: int, n: nat)
    requires perPage > 0 && n * perPage >= |rows|
    ensures Pages(rows, perPage, n) == rows
  {
    PagesArePrefix(rows, perPage, n);
  }

  /** The answer of `getTasksList`. */
  datatype ListResponse = ListResponse(recordsTotal: nat, recordsFiltered: nat, data: seq<seq<Cell>>)

  /** A task joined with its assignee's and creator's names. The assignee
      join compares the comma-joined `assign_to` text with user ids under
      the database's coercion rules, so it is a parameter. */
  function JoinedRow(t: Task, users: seq<User>, assigneeName: string -> Option<string>): seq<Cell>
  {
    TaskRow(t, assigneeName(t.assignTo), NameOf(users, t.taskCreatedBy))
  }

  /** `getTasksList` over the table's rows in table order. */
  function ListPage(rows: seq<Task>, users: seq<User>, assigneeName: string -> Option<string>,
                    start: Option<int>, length: Option<int>): (resp: ListResponse)
    requires WholePage(start, length)
    ensures resp.recordsTotal == resp.recordsFiltered == |rows|
    ensures |resp.data| <= LengthOf(length)
    ensures |resp.data| == if StartOf(start) >= |rows| then 0 else Min(LengthOf(length), |rows| - StartOf(start))
    ensures forall k :: 0 <= k < |resp.data| ==>
      StartOf(start) + k < |rows| && resp.data[k] == JoinedRow(rows[StartOf(start) + k], users, assigneeName)
    ensures forall k :: 0 <= k < |resp.data| ==> |resp.data[k]| == 11
  {
    var page := PageNumber(StartOf(start), LengthOf(length));
    var p := Page(rows, page, LengthOf(length));
    ListResponse(|rows|, |rows|, seq(|p|, k requires 0 <= k < |p| => JoinedRow(p[k], users, assigneeName)))
  }
}
