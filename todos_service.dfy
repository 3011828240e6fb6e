/**
 * The ownership-scoped task store: every lookup, update and removal is scoped by
 * the pair (todo id, owner id), and listing is filter-by-owner, newest first,
 * then an offset/limit window.  The relational store is replaced by an in-memory
 * table of rows; a store fault is an explicit boolean input.
 */
module TodosService {
  import opened Results

  const NotOwnedMessage := "Este todo no existe o no te pertenece"
  const DeletedMessage := "Todo eliminado con éxito"

  const ListFailed := "Error buscando todos"
  const CreateFailed := "Error creando todo"
  const UpdateFailed := "Error actualizando todo"
  const DeleteFailed := "Error eliminando todo"

  const DefaultPage: nat := 1
  const DefaultLimit: nat := 10

  datatype Todo = Todo(id: nat, userId: nat, title: string, description: string, createdAt: int)

  /** The `{todos, total}` part of what `getAllTodos` returns. */
  datatype TodoPage = TodoPage(todos: seq<Todo>, total: nat)

  // ---------------------------------------------------------------------------
  // Listing: filter by owner, newest first, window

  /** The rows owned by `userId`, in table order. */
  function Owned(rows: seq<Todo>, userId: nat): (r: seq<Todo>)
    ensures |r| <= |rows|
    ensures forall t :: t in r <==> t in rows && t.userId == userId
  {
    if rows == [] then []
    else
      assert rows == [rows[0]] + rows[1..];
      (if rows[0].userId == userId then [rows[0]] else []) + Owned(rows[1..], userId)
  }

  /**
   * The owner filter keeps every owned row as many times as the table holds it and
   * drops every other row.
   */
  lemma {:induction false} OwnedCounts(rows: seq<Todo>, userId: nat)
    ensures forall t :: multiset(Owned(rows, userId))[t] == if t.userId == userId then multiset(rows)[t] else 0
  {
    if rows != [] {
      OwnedCounts(rows[1..], userId);
      assert rows == [rows[0]] + rows[1..];
    }
  }

  /** The `count({where: {userId}})` query, computed independently of `Owned`. */
  function CountOwned(rows: seq<Todo>, userId: nat): (n: nat)
    ensures n == |Owned(rows, userId)|
  {
    if rows == [] then 0
    else (if rows[0].userId == userId then 1 else 0) + CountOwned(rows[1..], userId)
  }

  predicate NewestFirstOrder(s: seq<Todo>) {
    forall i, j :: 0 <= i < j < |s| ==> s[i].createdAt >= s[j].createdAt
  }

  function InsertByDate(t: Todo, s: seq<Todo>): (r: seq<Todo>)
    requires NewestFirstOrder(s)
    ensures NewestFirstOrder(r)
    ensures multiset(r) == multiset(s) + multiset{t}
    ensures |r| == |s| + 1
    ensures forall x :: x in r ==> x == t || x in s
  {
    if s == [] || t.createdAt >= s[0].createdAt then [t] + s
    else
      var rest := InsertByDate(t, s[1..]);
      assert s == [s[0]] + s[1..];
      assert forall x :: x in rest ==> x.createdAt <= s[0].createdAt;
      [s[0]] + rest
  }

  /**
   * `orderBy: {createdAt: 'desc'}`.  The store leaves the order of rows with equal
   * timestamps open; this model keeps them in table order (a stable sort).
   */
  function NewestFirst(s: seq<Todo>): (r: seq<Todo>)
    ensures NewestFirstOrder(r)
    ensures multiset(r) == multiset(s)
    ensures |r| == |s|
    ensures forall t :: t in r <==> t in s
  {
    if s == [] then []
    else
      assert s == [s[0]] + s[1..];
      var r := InsertByDate(s[0], NewestFirst(s[1..]));
      assert forall t :: t in r <==> t in multiset(r);
      assert forall t :: t in s <==> t in multiset(s);
      r
  }

  /** `skip`/`take`: at most `take` consecutive elements of `s` starting at position `skip`. */
  function Window(s: seq<Todo>, skip: nat, take: nat): (r: seq<Todo>)
    ensures |r| <= take
    ensures forall k :: 0 <= k < |r| ==> skip + k < |s| && r[k] == s[skip + k]
    ensures |r| < take ==> skip + |r| >= |s|
    ensures forall t :: t in r ==> t in s
  {
    if skip >= |s| then []
    else if |s| - skip <= take then s[skip..]
    else s[skip..skip + take]
  }

  /** The offset `(page - 1) * limit`; negative only when `page` is 0 and `limit` is not. */
  function Skip(page: nat, limit: nat): (skip: int)
    ensures skip < 0 <==> page == 0 && limit > 0
  {
    (page - 1) * limit
  }

  /**
   * `getAllTodos(userId, page = 1, limit = 10)`.  The store rejects a negative
   * offset, which surfaces like any other store fault.
   */
  function ListTodos(rows: seq<Todo>, userId: nat, page: Option<nat>, limit: Option<nat>, fault: bool)
    : (r: Outcome<TodoPage>)
    ensures var p, l := page.GetOr(DefaultPage), limit.GetOr(DefaultLimit);
      var skip := Skip(p, l);
      && (r.Thrown? <==> fault || (p == 0 && l > 0))
      && (r.Thrown? ==> r.fault == Fault(None, ListFailed))
      && (r.Returned? ==>
            && (forall t :: t in r.result.todos ==> t in rows && t.userId == userId)
            && |r.result.todos| <= l
            && (|r.result.todos| < l ==> skip + |r.result.todos| >= |Owned(rows, userId)|)
            && NewestFirstOrder(r.result.todos)
            && r.result.total == |Owned(rows, userId)|
            && (forall k :: 0 <= k < |r.result.todos| ==>
                  skip + k < |Owned(rows, userId)| &&
                  r.result.todos[k] == NewestFirst(Owned(rows, userId))[skip + k]))
  {
    var p, l := page.GetOr(DefaultPage), limit.GetOr(DefaultLimit);
    var skip := Skip(p, l);
    if fault || skip < 0 then Thrown(Fault(None, ListFailed))
    else
      var sorted := NewestFirst(Owned(rows, userId));
      var todos := Window(sorted, skip, l);
      Returned(TodoPage(todos, CountOwned(rows, userId)))
  }

  /** Called without `page` and `limit`, the listing is the first page of ten. */
  lemma ListDefaults(rows: seq<Todo>, userId: nat, fault: bool)
    ensures ListTodos(rows, userId, None, None, fault) == ListTodos(rows, userId, Some(1), Some(10), fault)
    ensures Skip(DefaultPage, DefaultLimit) == 0
  {
  }

  // ---------------------------------------------------------------------------
  // Ownership-scoped lookup and the specifications of update and delete

  /** The `where: {id, userId}` filter. */
  predicate Matches(t: Todo, userId: nat, id: nat) {
    t.id == id && t.userId == userId
  }

  predicate Owns(rows: seq<Todo>, userId: nat, id: nat) {
    exists i :: 0 <= i < |rows| && Matches(rows[i], userId, id)
  }

  predicate UniqueIds(rows: seq<Todo>) {
    forall i, j :: 0 <= i < j < |rows| ==> rows[i].id != rows[j].id
  }

  /** `findUnique({where: {id, userId}})`: the position of the first matching row. */
  function Lookup(rows: seq<Todo>, userId: nat, id: nat): (r: Option<nat>)
    ensures r.None? <==> !Owns(rows, userId, id)
    ensures r.Some? ==> r.value < |rows| && Matches(rows[r.value], userId, id)
    ensures r.Some? ==> forall i :: 0 <= i < r.value ==> !Matches(rows[i], userId, id)
  {
    if rows == [] then None
    else if Matches(rows[0], userId, id) then Some(0)
    else
      match Lookup(rows[1..], userId, id)
      case None =>
        assert forall i :: 1 <= i < |rows| ==> rows[i] == rows[1..][i - 1];
        None
      case Some(k) =>
        assert forall i :: 1 <= i < k + 1 ==> rows[i] == rows[1..][i - 1];
        Some(k + 1)
  }

  /** A row owned by someone else is, to `userId`, the same as no row at all. */
  lemma ForeignRowLooksMissing(rows: seq<Todo>, userId: nat, id: nat, k: nat)
    requires UniqueIds(rows)
    requires k < |rows| && rows[k].id == id && rows[k].userId != userId
    ensures !Owns(rows, userId, id)
    ensures Lookup(rows, userId, id) == None
  {
  }

  function Edit(t: Todo, title: string, description: string): Todo {
    t.(title := title, description := description)
  }

  /** The table after `update({where: {id, userId}, data: {title, description}})`. */
  function Edited(rows: seq<Todo>, userId: nat, id: nat, title: string, description: string): seq<Todo> {
    if rows == [] then []
    else
      [if Matches(rows[0], userId, id) then Edit(rows[0], title, description) else rows[0]]
      + Edited(rows[1..], userId, id, title, description)
  }

  /** The table after `delete({where: {id, userId}})`. */
  function Removed(rows: seq<Todo>, userId: nat, id: nat): seq<Todo> {
    if rows == [] then []
    else (if Matches(rows[0], userId, id) then [] else [rows[0]]) + Removed(rows[1..], userId, id)
  }

  /** With unique ids, the update rewrites exactly the one owned row and nothing else. */
  lemma {:induction false} EditedChangesOneRow(rows: seq<Todo>, userId: nat, id: nat, title: string, description: string, i: nat)
    requires UniqueIds(rows)
    requires i < |rows| && Matches(rows[i], userId, id)
    ensures Edited(rows, userId, id, title, description) == rows[i := Edit(rows[i], title, description)]
  {
    if i == 0 {
      EditedNoMatch(rows[1..], userId, id, title, description);
    } else {
      EditedChangesOneRow(rows[1..], userId, id, title, description, i - 1);
      assert rows[0].id != rows[i].id;
      assert rows[i := Edit(rows[i], title, description)]
          == [rows[0]] + rows[1..][i - 1 := Edit(rows[i], title, description)];
    }
  }

  lemma {:induction false} EditedNoMatch(rows: seq<Todo>, userId: nat, id: nat, title: string, description: string)
    requires forall t :: t in rows ==> t.id != id
    ensures Edited(rows, userId, id, title, description) == rows
  {
    if rows != [] {
      assert rows[0] in rows;
      EditedNoMatch(rows[1..], userId, id, title, description);
      assert rows == [rows[0]] + rows[1..];
    }
  }

  /** With unique ids, the removal takes out exactly the one owned row. */
  lemma {:induction false} RemovedTakesOneRow(rows: seq<Todo>, userId: nat, id: nat, i: nat)
    requires UniqueIds(rows)
    requires i < |rows| && Matches(rows[i], userId, id)
    ensures Removed(rows, userId, id) == rows[..i] + rows[i + 1..]
  {
    if i == 0 {
      RemovedNoMatch(rows[1..], userId, id);
      assert rows[1..] == rows[..0] + rows[1..];
    } else {
      RemovedTakesOneRow(rows[1..], userId, id, i - 1);
      assert rows[0].id != rows[i].id;
      assert rows[..i] + rows[i + 1..] == [rows[0]] + (rows[1..][..i - 1] + rows[1..][i..]);
    }
  }

  lemma {:induction false} RemovedNoMatch(rows: seq<Todo>, userId: nat, id: nat)
    requires forall t :: t in rows ==> t.id != id
    ensures Removed(rows, userId, id) == rows
  {
    if rows != [] {
      assert rows[0] in rows;
      RemovedNoMatch(rows[1..], userId, id);
      assert rows == [rows[0]] + rows[1..];
    }
  }

  // ---------------------------------------------------------------------------
  // Isolation between users

  lemma {:induction false} OwnedAppend(rows: seq<Todo>, t: Todo, userId: nat)
    ensures Owned(rows + [t], userId) == Owned(rows, userId) + (if t.userId == userId then [t] else [])
  {
    if rows == [] {
      assert rows + [t] == [t];
    } else {
      var all := rows + [t];
      assert all[0] == rows[0];
      assert all[1..] == rows[1..] + [t];
      OwnedAppend(rows[1..], t, userId);
      calc {
        Owned(all, userId);
        (if rows[0].userId == userId then [rows[0]] else []) + Owned(rows[1..] + [t], userId);
        (if rows[0].userId == userId then [rows[0]] else [])
          + (Owned(rows[1..], userId) + (if t.userId == userId then [t] else []));
        Owned(rows, userId) + (if t.userId == userId then [t] else []);
      }
    }
  }

  lemma {:induction false} EditedKeepsOthers(rows: seq<Todo>, userId: nat, id: nat, title: string, description: string, other: nat)
    requires other != userId
    ensures Owned(Edited(rows, userId, id, title, description), other) == Owned(rows, other)
  {
    if rows != [] {
      EditedKeepsOthers(rows[1..], userId, id, title, description, other);
      var e := Edited(rows, userId, id, title, description);
      assert e[1..] == Edited(rows[1..], userId, id, title, description);
    }
  }

  lemma {:induction false} RemovedKeepsOthers(rows: seq<Todo>, userId: nat, id: nat, other: nat)
    requires other != userId
    ensures Owned(Removed(rows, userId, id), other) == Owned(rows, other)
  {
    if rows != [] {
      RemovedKeepsOthers(rows[1..], userId, id, other);
      if Matches(rows[0], userId, id) {
        assert Removed(rows, userId, id) == Removed(rows[1..], userId, id);
      } else {
        var r := Removed(rows, userId, id);
        assert r == [rows[0]] + Removed(rows[1..], userId, id);
        assert r[1..] == Removed(rows[1..], userId, id);
      }
    }
  }

  /**
   * No create, update or delete done on behalf of one user changes what another
   * user's listing returns, on any page.
   */
  lemma OthersListingUnchanged(rows: seq<Todo>, userId: nat, other: nat, t: Todo, id: nat,
                               title: string, description: string,
                               page: Option<nat>, limit: Option<nat>, fault: bool)
    requires other != userId && t.userId == userId
    ensures ListTodos(rows + [t], other, page, limit, fault) == ListTodos(rows, other, page, limit, fault)
    ensures ListTodos(Edited(rows, userId, id, title, description), other, page, limit, fault)
         == ListTodos(rows, other, page, limit, fault)
    ensures ListTodos(Removed(rows, userId, id), other, page, limit, fault)
         == ListTodos(rows, other, page, limit, fault)
  {
    OwnedAppend(rows, t, other);
    EditedKeepsOthers(rows, userId, id, title, description, other);
    RemovedKeepsOthers(rows, userId, id, other);
    CountOwnedAgrees(rows + [t], rows, other);
    CountOwnedAgrees(Edited(rows, userId, id, title, description), rows, other);
    CountOwnedAgrees(Removed(rows, userId, id), rows, other);
  }

  lemma CountOwnedAgrees(a: seq<Todo>, b: seq<Todo>, userId: nat)
    requires Owned(a, userId) == Owned(b, userId)
    ensures CountOwned(a, userId) == CountOwned(b, userId)
  {
  }

  // ---------------------------------------------------------------------------
  // The mutable table

  class TodoStore {
    var rows: seq<Todo>
    var nextId: nat

    ghost predicate Valid()
      reads this
    {
      UniqueIds(rows) && forall t :: t in rows ==> t.id < nextId
    }

    /** An empty table; the store's autoincrement starts at 1. */
    constructor ()
      ensures Valid() && rows == [] && nextId == 1
    {
      rows := [];
      nextId := 1;
    }

    /** `create(userId, title, description)`; the store stamps the row with `now`. */
    method Create(userId: nat, title: string, description: string, now: int, fault: bool)
      returns (r: Outcome<Reply<Todo>>)
      requires Valid()
      modifies this
      ensures Valid()
      ensures fault ==> r == Thrown(Fault(None, CreateFailed)) && rows == old(rows) && nextId == old(nextId)
      ensures !fault ==>
        var t := Todo(old(nextId), userId, title, description, now);
        && r == Returned(Success(t))
        && rows == old(rows) + [t]
        && nextId == old(nextId) + 1
    {
      if fault {
        return Thrown(Fault(None, CreateFailed));
      }
      var t := Todo(nextId, userId, title, description, now);
      rows := rows + [t];
      nextId := nextId + 1;
      r := Returned(Success(t));
    }

    /** `update(userId, id, title, description)`: lookup by (id, userId), then write. */
    method Update(userId: nat, id: nat, title: string, description: string, fault: bool)
      returns (r: Outcome<Reply<Todo>>)
      requires Valid()
      modifies this
      ensures Valid() && nextId == old(nextId)
      ensures fault ==> r == Thrown(Fault(None, UpdateFailed)) && rows == old(rows)
      ensures !fault && !Owns(old(rows), userId, id) ==>
        r == Returned(Failure(NotOwnedMessage)) && rows == old(rows)
      ensures !fault && Owns(old(rows), userId, id) ==>
        && rows == Edited(old(rows), userId, id, title, description)
        && r == Returned(Success(Edit(old(rows)[Lookup(old(rows), userId, id).value], title, description)))
    {
      if fault {
        return Thrown(Fault(None, UpdateFailed));
      }
      var found := Lookup(rows, userId, id);
      if found.None? {
        return Returned(Failure(NotOwnedMessage));
      }
      var i := found.value;
      var updated := Edit(rows[i], title, description);
      EditedChangesOneRow(rows, userId, id, title, description, i);
      rows := rows[i := updated];
      r := Returned(Success(updated));
    }

    /** `deleteTodo(userId, id)`: lookup by (id, userId), then remove. */
    method DeleteTodo(userId: nat, id: nat, fault: bool) returns (r: Outcome<Reply<string>>)
      requires Valid()
      modifies this
      ensures Valid() && nextId == old(nextId)
      ensures fault ==> r == Thrown(Fault(None, DeleteFailed)) && rows == old(rows)
      ensures !fault && !Owns(old(rows), userId, id) ==>
        r == Returned(Failure(NotOwnedMessage)) && rows == old(rows)
      ensures !fault && Owns(old(rows), userId, id) ==>
        r == Returned(Success(DeletedMessage)) && rows == Removed(old(rows), userId, id)
    {
      if fault {
        return Thrown(Fault(None, DeleteFailed));
      }
      var found := Lookup(rows, userId, id);
      if found.None? {
        return Returned(Failure(NotOwnedMessage));
      }
      var i := found.value;
      RemovedTakesOneRow(rows, userId, id, i);
      rows := rows[..i] + rows[i + 1..];
      r := Returned(Success(DeletedMessage));
    }
  }
}
