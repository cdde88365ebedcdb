/** The users table as the task controller reads it: the `getUsers` search
    behind the assignee dropdown, and lookup of a user by id. */
module Users {
  import opened Wrappers

  /** The three columns the controller selects from `users`. */
  datatype User = User(id: int, name: string, userType: string)

  /** The most users one search returns (`take(10)`). */
  const SEARCH_LIMIT: nat := 10

  predicate OccursAt(s: string, q: string, i: int)
  {
    0 <= i && i + |q| <= |s| && s[i..i + |q|] == q
  }

  /** `s LIKE '%q%'`, read as plain substring containment. */
  function Contains(s: string, q: string): (b: bool)
    ensures b <==> exists i :: OccursAt(s, q, i)
  {
    if |q| <= |s| && s[..|q|] == q then
      assert OccursAt(s, q, 0);
      true
    else if |s| <= |q| then
      assert forall i :: OccursAt(s, q, i) ==> s == q;
      false
    else
      var b := Contains(s[1..], q);
      assert b ==> exists i :: OccursAt(s, q, i) by {
        if b {
          var j :| OccursAt(s[1..], q, j);
          assert s[1..][j..j + |q|] == s[j + 1..j + 1 + |q|];
          assert OccursAt(s, q, j + 1);
        }
      }
      assert (exists i :: OccursAt(s, q, i)) ==> b by {
        if exists i :: OccursAt(s, q, i) {
          var i :| OccursAt(s, q, i);
          assert i != 0 by { assert s[..|q|] == s[0..|q|]; }
          assert s[1..][i - 1..i - 1 + |q|] == s[i..i + |q|];
          assert OccursAt(s[1..], q, i - 1);
        }
      }
      b
  }

  /** The user's name or user type contains the search string. */
  predicate Matches(u: User, q: string)
  {
    Contains(u.name, q) || Contains(u.userType, q)
  }

  /** The matching users in table order. */
  function Matching(users: seq<User>, q: string): (r: seq<User>)
    ensures forall u :: u in r <==> u in users && Matches(u, q)
    ensures |r| <= |users|
  {
    if |users| == 0 then []
    else if Matches(users[0], q) then [users[0]] + Matching(users[1..], q)
    else Matching(users[1..], q)
  }

  /** `getUsers`: the first ten users whose name or user type contains the
      query; a missing `q` searches for the empty string, which every user
      matches. */
  function GetUsers(users: seq<User>, q: Option<string>): (r: seq<User>)
    ensures |r| <= SEARCH_LIMIT
    ensures forall u :: u in r ==> u in users && Matches(u, OrElse(q, ""))
    ensures |r| < SEARCH_LIMIT ==> forall u :: u in users && Matches(u, OrElse(q, "")) ==> u in r
    ensures |r| == if |Matching(users, OrElse(q, ""))| <= SEARCH_LIMIT then |Matching(users, OrElse(q, ""))| else SEARCH_LIMIT
    ensures r == Matching(users, OrElse(q, ""))[..|r|]
  {
    var all := Matching(users, OrElse(q, ""));
    if |all| <= SEARCH_LIMIT then all else all[..SEARCH_LIMIT]
  }

  /** An empty or missing query imposes no condition: up to ten users come
      back, and all of them when there are at most ten. */
  lemma EmptyQueryMatchesAll(users: seq<User>)
    ensures |GetUsers(users, None)| == if |users| <= SEARCH_LIMIT then |users| else SEARCH_LIMIT
  {
    assert forall s: string :: OccursAt(s, "", 0);
    var all := Matching(users, "");
    assert forall u :: u in users ==> Matches(u, "");
    MatchingKeepsAll(users, "");
  }

  lemma {:induction false} MatchingKeepsAll(users: seq<User>, q: string)
    requires forall u :: u in users ==> Matches(u, q)
    ensures Matching(users, q) == users
  {
    if |users| > 0 {
      assert users[0] in users;
      assert forall u :: u in users[1..] ==> u in users;
      MatchingKeepsAll(users[1..], q);
      assert users == [users[0]] + users[1..];
    }
  }

  /** The first user with the given id: the `belongsTo` relation loaded with
      a task. */
  function FindUser(users: seq<User>, id: int): (r: Option<User>)
    ensures r.Some? ==> r.value in users && r.value.id == id
    ensures r.None? ==> forall u :: u in users ==> u.id != id
  {
    if |users| == 0 then None
    else if users[0].id == id then Some(users[0])
    else FindUser(users[1..], id)
  }

  /** The display name a left join on the user id yields: null when no user
      has that id. */
  function NameOf(users: seq<User>, id: int): (r: Option<string>)
    ensures r.Some? <==> exists u :: u in users && u.id == id
    ensures r.Some? ==> exists u :: u in users && u.id == id && r.value == u.name
  {
    match FindUser(users, id)
    case Some(u) => Some(u.name)
    case None => None
  }
}
