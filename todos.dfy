/** The todos router: the table of todos keyed by id, changed in place by
    create, partial update, delete, the two bulk clears and the reorder,
    and read in list order (incomplete first, then by order index). The
    clock is a parameter; the owner test is the user_id filter. */
module Todos {
  import opened Common

  datatype Todo = Todo(
    id: int,
    userId: int,
    text: string,
    isCompleted: bool,
    completedAt: Option<Timestamp>,
    orderIndex: int,
    category: Option<string>,
    updatedAt: Timestamp)

  /** An update request: None marks a field that was not supplied. */
  datatype TodoUpdate = TodoUpdate(
    text: Option<string>,
    isCompleted: Option<bool>,
    orderIndex: Option<int>,
    category: Option<string>)

  // ---------------------------------------------------------------------
  // Update

  predicate Supplied(upd: TodoUpdate)
  {
    upd.text.Some? || upd.isCompleted.Some? || upd.orderIndex.Some? || upd.category.Some?
  }

  /** The row after an update: the supplied fields are written; supplying
      is_completed also stamps completed_at with `local`, the server's local
      clock (true), or clears it (false); updated_at becomes `db`, the
      database's UTC clock, when anything was supplied. The two clocks are
      separate parameters because the source reads two different clocks. */
  function Patched(t: Todo, upd: TodoUpdate, local: Timestamp, db: Timestamp): (r: Todo)
    ensures r.id == t.id && r.userId == t.userId
    ensures r.text == (if upd.text.Some? then upd.text.value else t.text)
    ensures r.isCompleted == (if upd.isCompleted.Some? then upd.isCompleted.value else t.isCompleted)
    ensures r.completedAt.Some? && upd.isCompleted.Some? ==> r.isCompleted && r.completedAt == Some(local)
    ensures r.orderIndex == (if upd.orderIndex.Some? then upd.orderIndex.value else t.orderIndex)
    ensures r.category == (if upd.category.Some? then upd.category else t.category)
    ensures r.updatedAt == (if Supplied(upd) then db else t.updatedAt)
  {
    t.(
      text := if upd.text.Some? then upd.text.value else t.text,
      isCompleted := if upd.isCompleted.Some? then upd.isCompleted.value else t.isCompleted,
      completedAt := if upd.isCompleted.Some? then (if upd.isCompleted.value then Some(local) else None) else t.completedAt,
      orderIndex := if upd.orderIndex.Some? then upd.orderIndex.value else t.orderIndex,
      category := if upd.category.Some? then upd.category else t.category,
      updatedAt := if Supplied(upd) then db else t.updatedAt)
  }

  /** Marking a todo completed stamps the time, marking it open clears it;
      a todo whose completion is not supplied keeps its stamp. */
  lemma CompletionStamp(t: Todo, upd: TodoUpdate, local: Timestamp, db: Timestamp)
    ensures upd.isCompleted == Some(true) ==> Patched(t, upd, local, db).isCompleted && Patched(t, upd, local, db).completedAt == Some(local)
    ensures upd.isCompleted == Some(false) ==> !Patched(t, upd, local, db).isCompleted && Patched(t, upd, local, db).completedAt.None?
    ensures upd.isCompleted.None? ==> Patched(t, upd, local, db).isCompleted == t.isCompleted && Patched(t, upd, local, db).completedAt == t.completedAt
  {
  }

  /** An update keeps the todo's id and owner, changes nothing when nothing
      is supplied, and changes only updated_at besides the supplied fields. */
  lemma OnlySuppliedChange(t: Todo, upd: TodoUpdate, local: Timestamp, db: Timestamp)
    ensures Patched(t, upd, local, db).id == t.id && Patched(t, upd, local, db).userId == t.userId
    ensures !Supplied(upd) ==> Patched(t, upd, local, db) == t
    ensures upd.text.None? ==> Patched(t, upd, local, db).text == t.text
    ensures upd.orderIndex.None? ==> Patched(t, upd, local, db).orderIndex == t.orderIndex
    ensures upd.category.None? ==> Patched(t, upd, local, db).category == t.category
  {
  }

  /** Updating twice with the same request at the same time is updating once. */
  lemma PatchIdempotent(t: Todo, upd: TodoUpdate, local: Timestamp, db: Timestamp)
    ensures Patched(Patched(t, upd, local, db), upd, local, db) == Patched(t, upd, local, db)
  {
  }

  // ---------------------------------------------------------------------
  // Bulk clears and reorder, as functions of the table

  /** The ids of the user's todos whose completion flag is `completed`. */
  function Matching(rows: map<int, Todo>, user: int, completed: bool): set<int>
  {
    set k | k in rows && rows[k].userId == user && rows[k].isCompleted == completed
  }

  /** The table without the user's todos whose completion flag is `completed`. */
  function Cleared(rows: map<int, Todo>, user: int, completed: bool): (r: map<int, Todo>)
    ensures r.Keys == rows.Keys - Matching(rows, user, completed)
    ensures forall k :: k in r ==> r[k] == rows[k]
  {
    map k | k in rows && !(rows[k].userId == user && rows[k].isCompleted == completed) :: rows[k]
  }

  /** A clear removes exactly the matching todos: the reported count is the
      number of rows removed, other users' todos all stay, and the user's
      todos of the other kind stay. */
  lemma ClearedCount(rows: map<int, Todo>, user: int, completed: bool)
    ensures |Matching(rows, user, completed)| == |rows.Keys| - |Cleared(rows, user, completed).Keys|
    ensures forall k :: k in rows && rows[k].userId != user ==> k in Cleared(rows, user, completed)
    ensures forall k :: k in rows && rows[k].isCompleted != completed ==> k in Cleared(rows, user, completed)
    ensures Matching(Cleared(rows, user, completed), user, completed) == {}
  {
    var m := Matching(rows, user, completed);
    assert rows.Keys == Cleared(rows, user, completed).Keys + m;
  }

  /** The ids of the list that the user owns, as the ownership query finds them. */
  function FoundIds(rows: map<int, Todo>, user: int, ids: seq<int>): set<int>
  {
    set k | k in ids && k in rows && rows[k].userId == user
  }

  predicate Owns(rows: map<int, Todo>, user: int, k: int)
  {
    k in rows && rows[k].userId == user
  }

  /** The reorder check passes (as many ids found as listed) exactly when
      the list has no repeats and every id in it is one of the user's todos. */
  lemma ReorderAccepts(rows: map<int, Todo>, user: int, ids: seq<int>)
    ensures |FoundIds(rows, user, ids)| == |ids| <==> Distinct(ids) && forall i :: 0 <= i < |ids| ==> Owns(rows, user, ids[i])
  {
    var found := FoundIds(rows, user, ids);
    var listed := set k | k in ids;
    DistinctCard(ids);
    SubsetCard(found, listed);
    if |found| == |ids| {
      SubsetFull(found, listed);
      forall i | 0 <= i < |ids| ensures Owns(rows, user, ids[i]) {
        assert ids[i] in listed;
      }
    }
    if Distinct(ids) && forall i :: 0 <= i < |ids| ==> Owns(rows, user, ids[i]) {
      assert found == listed;
    }
  }

  // ---------------------------------------------------------------------
  // List order

  /** a comes before b in the list: incomplete before complete, then by
      ascending order index. */
  predicate ListedBefore(a: Todo, b: Todo)
  {
    (!a.isCompleted && b.isCompleted) || (a.isCompleted == b.isCompleted && a.orderIndex <= b.orderIndex)
  }

  predicate InListOrder(s: seq<Todo>)
  {
    forall i, j :: 0 <= i < j < |s| ==> ListedBefore(s[i], s[j])
  }

  function InsertTodo(t: Todo, s: seq<Todo>): (r: seq<Todo>)
    requires InListOrder(s)
    ensures InListOrder(r)
    ensures multiset(r) == multiset(s) + multiset{t}
    ensures |r| == |s| + 1
  {
    if s == [] || ListedBefore(t, s[0]) then
      InsertAtHead(t, s);
      [t] + s
    else
      var r := InsertTodo(t, s[1..]);
      InsertAfterHead(t, s, r);
      [s[0]] + r
  }

  /** A todo listed before the head of an ordered list goes in front. */
  lemma InsertAtHead(t: Todo, s: seq<Todo>)
    requires InListOrder(s) && (s == [] || ListedBefore(t, s[0]))
    ensures InListOrder([t] + s)
  {
  }

  /** Otherwise the head stays in front of the insertion into the rest. */
  lemma InsertAfterHead(t: Todo, s: seq<Todo>, r: seq<Todo>)
    requires |s| > 0 && InListOrder(s) && !ListedBefore(t, s[0])
    requires InListOrder(r) && multiset(r) == multiset(s[1..]) + multiset{t}
    ensures InListOrder([s[0]] + r)
    ensures multiset([s[0]] + r) == multiset(s) + multiset{t}
  {
    FirstBeforeAll(t, s, r);
    assert s == [s[0]] + s[1..];
  }

  /** The head of an ordered list that t does not come before precedes
      everything in the ordered insertion of t into the rest. */
  lemma FirstBeforeAll(t: Todo, s: seq<Todo>, r: seq<Todo>)
    requires |s| > 0 && InListOrder(s) && !ListedBefore(t, s[0])
    requires multiset(r) == multiset(s[1..]) + multiset{t}
    ensures forall i :: 0 <= i < |r| ==> ListedBefore(s[0], r[i])
  {
    forall i | 0 <= i < |r| ensures ListedBefore(s[0], r[i]) {
      assert r[i] in multiset(r);
      if r[i] != t {
        assert r[i] in multiset(s[1..]);
        var j :| 0 <= j < |s[1..]| && s[1..][j] == r[i];
        assert s[j + 1] == r[i];
      }
    }
  }

  /** The table keeps every row under its own id. */
  predicate KeyedById(rows: map<int, Todo>)
  {
    forall k :: k in rows ==> rows[k].id == k
  }

  /** The rows with ids in `keys`, in list order; ties are left in
      whatever order the choice of ids gives, as SQL leaves them. */
  ghost function Listing(rows: map<int, Todo>, keys: set<int>): (r: seq<Todo>)
    requires KeyedById(rows) && keys <= rows.Keys
    ensures InListOrder(r)
    ensures |r| == |keys|
    ensures forall t :: t in r <==> t.id in keys && t == rows[t.id]
    ensures forall t :: multiset(r)[t] <= 1
    decreases keys
  {
    if keys == {} then []
    else
      HasMember(keys);
      var k :| k in keys;
      var rest := Listing(rows, keys - {k});
      assert rows[k] !in rest;
      var r := InsertTodo(rows[k], rest);
      assert forall t :: t in r <==> t in multiset(r);
      r
  }

  /** list_todos: the user's todos, each once, in list order. */
  ghost function ListTodos(rows: map<int, Todo>, user: int): (r: seq<Todo>)
    requires KeyedById(rows)
    ensures InListOrder(r)
    ensures forall t :: t in r <==> t.id in rows && t == rows[t.id] && t.userId == user
    ensures forall t :: multiset(r)[t] <= 1
  {
    Listing(rows, set k | k in rows && rows[k].userId == user)
  }

  // ---------------------------------------------------------------------
  // The table

  class TodoTable {
    var rows: map<int, Todo>

    ghost predicate Valid()
      reads this
    {
      KeyedById(rows)
    }

    constructor ()
      ensures Valid() && rows == map[]
    {
      rows := map[];
    }

    /** create_todo: a new open todo under the id the store assigns. */
    method Create(user: int, text: string, orderIndex: int, category: Option<string>, newId: int, now: Timestamp)
      returns (t: Todo)
      requires Valid() && newId !in rows
      modifies this
      ensures Valid()
      ensures t == Todo(newId, user, text, false, None, orderIndex, category, now)
      ensures rows == old(rows)[newId := t]
    {
      t := Todo(newId, user, text, false, None, orderIndex, category, now);
      rows := rows[newId := t];
    }

    /** update_todo: 404 unless the todo exists and is the user's; else the
      row is patched in place and returned. */
    method Update(id: int, user: int, upd: TodoUpdate, local: Timestamp, db: Timestamp) returns (r: Result<Todo>)
      requires Valid()
      modifies this
      ensures Valid()
      ensures !Owns(old(rows), user, id) ==> r == Failure(404) && rows == old(rows)
      ensures Owns(old(rows), user, id) ==>
        && rows == old(rows)[id := Patched(old(rows)[id], upd, local, db)]
        && r == Ok(rows[id])
    {
      if !Owns(rows, user, id) {
        return Failure(404);
      }
      var t := rows[id];
      if upd.text.Some? {
        t := t.(text := upd.text.value);
      }
      if upd.isCompleted.Some? {
        t := t.(isCompleted := upd.isCompleted.value);
        if upd.isCompleted.value {
          t := t.(completedAt := Some(local));
        } else {
          t := t.(completedAt := None);
        }
      }
      if upd.orderIndex.Some? {
        t := t.(orderIndex := upd.orderIndex.value);
      }
      if upd.category.Some? {
        t := t.(category := upd.category);
      }
      if Supplied(upd) {
        t := t.(updatedAt := db);
        rows := rows[id := t];
      }
      return Ok(rows[id]);
    }

    /** delete_todo: 404 unless the todo exists and is the user's; else
        exactly that row is removed. */
    method Delete(id: int, user: int) returns (r: Result<()>)
      requires Valid()
      modifies this
      ensures Valid()
      ensures r.Failure? <==> !Owns(old(rows), user, id)
      ensures r.Failure? ==> r.status == 404 && rows == old(rows)
      ensures r.Ok? ==> rows == old(rows) - {id}
    {
      if !Owns(rows, user, id) {
        return Failure(404);
      }
      rows := rows - {id};
      return Ok(());
    }

    /** clear_completed_todos (completed = true) and clear_in_progress_todos
        (completed = false): count the user's matching todos, then delete
        them. */
    method Clear(user: int, completed: bool) returns (count: nat)
      requires Valid()
      modifies this
      ensures Valid()
      ensures count == |Matching(old(rows), user, completed)|
      ensures rows == Cleared(old(rows), user, completed)
    {
      count := |Matching(rows, user, completed)|;
      rows := Cleared(rows, user, completed);
    }

    /** reorder_todos: 400 unless as many of the ids are the user's todos as
        are listed; else the todo at position i gets order index i (and
        updated_at now), and every other row is unchanged. */
    method Reorder(ids: seq<int>, user: int, now: Timestamp) returns (r: Result<()>)
      requires Valid()
      modifies this
      ensures Valid()
      ensures r.Failure? <==> |FoundIds(old(rows), user, ids)| != |ids|
      ensures r.Failure? ==> r.status == 400 && rows == old(rows)
      ensures r.Ok? ==>
        && rows.Keys == old(rows).Keys
        && (forall i :: 0 <= i < |ids| ==> ids[i] in rows && rows[ids[i]] == old(rows)[ids[i]].(orderIndex := i, updatedAt := now))
        && (forall k :: k in old(rows) && k !in ids ==> rows[k] == old(rows)[k])
    {
      if |FoundIds(rows, user, ids)| != |ids| {
        return Failure(400);
      }
      ReorderAccepts(rows, user, ids);
      for index := 0 to |ids|
        invariant Valid()
        invariant rows.Keys == old(rows).Keys
        invariant forall j :: 0 <= j < index ==> ids[j] in rows && rows[ids[j]] == old(rows)[ids[j]].(orderIndex := j, updatedAt := now)
        invariant forall k :: k in old(rows) && k !in ids[..index] ==> rows[k] == old(rows)[k]
      {
        assert Owns(old(rows), user, ids[index]);
        assert forall j :: 0 <= j < index ==> ids[j] != ids[index];
        rows := rows[ids[index] := rows[ids[index]].(orderIndex := index, updatedAt := now)];
        assert ids[..index + 1] == ids[..index] + [ids[index]];
      }
      assert ids[..|ids|] == ids;
      return Ok(());
    }
  }
}
