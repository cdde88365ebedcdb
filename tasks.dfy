/** A row of the `tasks` table as the task controller reads and writes it
    (App\Models\Task), and the comma-joined encoding of the assignee list. */
module Tasks {

  /** The two status strings the controller writes and compares against. */
  const ACTIVE: string := "active"
  const DELETED: string := "deleted"

  /** One task record. `status` is kept as the stored string: the controller
      compares it with `'deleted'` and writes `'deleted'` or `'active'`, but a
      row may hold whatever default its migration gives it. */
  datatype Task = Task(
    id: int,
    title: string,
    taskDescription: string,
    assignTo: string,
    taskCreatedBy: int,
    startDate: string,
    endDate: string,
    flag: string,
    priority: string,
    status: string,
    userId: int)

  /** PHP's `implode(',', items)`: the items separated by single commas. */
  function Implode(items: seq<string>): string
  {
    if |items| == 0 then ""
    else if |items| == 1 then items[0]
    else items[0] + "," + Implode(items[1..])
  }

  /** PHP's `explode(',', s)`: the pieces of `s` between commas. There is
      always at least one piece (`explode(',', '')` is `['']`). */
  function Explode(s: string): (pieces: seq<string>)
    ensures |pieces| >= 1
  {
    if |s| == 0 then [""]
    else
      var rest := Explode(s[1..]);
      if s[0] == ',' then [""] + rest
      else [[s[0]] + rest[0]] + rest[1..]
  }

  /** Splitting a comma-free prefix glued to a string `b` glues the prefix to
      the first piece of `b`. */
  lemma {:induction false} ExplodeCommaFreePrefix(a: string, b: string)
    requires ',' !in a
    ensures Explode(a + b) == [a + Explode(b)[0]] + Explode(b)[1..]
  {
    if |a| == 0 {
      assert a + b == b;
      var pieces := Explode(b);
      assert pieces == [pieces[0]] + pieces[1..];
      assert a + pieces[0] == pieces[0];
    } else {
      assert (a + b)[1..] == a[1..] + b;
      assert (a + b)[0] == a[0];
      ExplodeCommaFreePrefix(a[1..], b);
      assert [a[0]] + (a[1..] + Explode(b)[0]) == a + Explode(b)[0];
    }
  }

  /** The stored `assign_to` string decodes back to the submitted assignee
      list, as long as no assignee itself contains a comma: the comma-join
      loses nothing. */
  lemma {:induction false} ExplodeImplode(items: seq<string>)
    requires |items| > 0
    requires forall k :: 0 <= k < |items| ==> ',' !in items[k]
    ensures Explode(Implode(items)) == items
  {
    if |items| == 1 {
      ExplodeCommaFreePrefix(items[0], "");
      assert items[0] + "" == items[0];
    } else {
      var tail := Implode(items[1..]);
      ExplodeImplode(items[1..]);
      assert items[0] + "," + tail == items[0] + ("," + tail);
      ExplodeCommaFreePrefix(items[0], "," + tail);
      assert ("," + tail)[1..] == tail;
      assert Explode("," + tail) == [""] + Explode(tail);
      assert items[0] + "" == items[0];
      assert items == [items[0]] + items[1..];
    }
  }
}
