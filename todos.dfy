/**
 * The task records the task-list screen holds in memory, and the three list
 * computations its handlers install after a successful remote call:
 * prepending the inserted row, patching every row with a given identifier
 * (`todos.map(todo => todo.id === id ? { ...todo, field } : todo)`), and
 * dropping every row with a given identifier (`todos.filter(...)`).
 */
module Todos {

  /** Identifier of a task, assigned by the remote store; only compared. */
  type TaskId = int
  /** Identifier of the owning account, issued by the remote auth service. */
  type UserId = string

  /** One row of the `todos` table as the client sees it (`created_at` is
      only used by the server for ordering and is not kept here). */
  datatype Todo = Todo(id: TaskId, title: string, isComplete: bool, userId: UserId)

  /** The one-field object a handler sends to `update` and spreads over the
      matching local row. */
  datatype Patch = SetComplete(isComplete: bool) | SetTitle(title: string)

  /** `{ ...todo, field: value }`: the patched field takes the new value and
      every other field is copied. */
  function Apply(t: Todo, p: Patch): (u: Todo)
    ensures u.id == t.id && u.userId == t.userId
    ensures u.isComplete == (if p.SetComplete? then p.isComplete else t.isComplete)
    ensures u.title == (if p.SetTitle? then p.title else t.title)
  {
    match p
    case SetComplete(b) => t.(isComplete := b)
    case SetTitle(s) => t.(title := s)
  }

  /** The identifiers of a list, in order. */
  function Ids(s: seq<Todo>): (ids: seq<TaskId>)
    ensures |ids| == |s|
    ensures forall k :: 0 <= k < |s| ==> ids[k] == s[k].id
  {
    if s == [] then [] else [s[0].id] + Ids(s[1..])
  }

  /** Whether some entry carries identifier `id`. */
  predicate HasId(s: seq<Todo>, id: TaskId) {
    exists k :: 0 <= k < |s| && s[k].id == id
  }

  /** No identifier occurs twice (the remote store's primary key). */
  predicate UniqueIds(s: seq<Todo>) {
    forall i, j :: 0 <= i < j < |s| ==> s[i].id != s[j].id
  }

  /** How many entries carry identifier `id`. */
  function CountId(s: seq<Todo>, id: TaskId): (n: nat)
    ensures n <= |s|
    ensures n == 0 <==> !HasId(s, id)
  {
    if s == [] then 0
    else (if s[0].id == id then 1 else 0) + CountId(s[1..], id)
  }

  /** `todos.map(todo => todo.id === id ? { ...todo, ...p } : todo)`:
      position by position, an entry with identifier `id` is patched and
      every other entry is kept. */
  function PatchById(s: seq<Todo>, id: TaskId, p: Patch): (r: seq<Todo>)
    ensures |r| == |s|
    ensures forall k :: 0 <= k < |s| ==> r[k] == (if s[k].id == id then Apply(s[k], p) else s[k])
  {
    if s == [] then []
    else [if s[0].id == id then Apply(s[0], p) else s[0]] + PatchById(s[1..], id, p)
  }

  /** `todos.filter(todo => todo.id !== id)`: the entries whose identifier
      differs from `id`, in their original order. */
  function RemoveById(s: seq<Todo>, id: TaskId): (r: seq<Todo>)
    ensures |r| <= |s|
    ensures forall t :: t in r ==> t in s && t.id != id
    ensures forall k :: 0 <= k < |s| && s[k].id != id ==> s[k] in r
  {
    if s == [] then []
    else (if s[0].id == id then [] else [s[0]]) + RemoveById(s[1..], id)
  }

  /** `a` is `b` with some entries left out and the rest in the same order. */
  predicate Subsequence(a: seq<Todo>, b: seq<Todo>) {
    if a == [] then true
    else if b == [] then false
    else if a[0] == b[0] then Subsequence(a[1..], b[1..])
    else Subsequence(a, b[1..])
  }

  // ---------------------------------------------------------------------
  // Toggling the completion flag
  // ---------------------------------------------------------------------

  /** Toggling `id` from `current`: the length and the identifier order are
      kept; every entry with identifier `id` gets `!current` and keeps its
      title and owner; every other entry is unchanged. */
  lemma ToggleSpec(s: seq<Todo>, id: TaskId, current: bool)
    ensures var r := PatchById(s, id, SetComplete(!current));
      |r| == |s| && Ids(r) == Ids(s)
      && (forall k :: 0 <= k < |s| && s[k].id == id ==>
            r[k].isComplete == !current && r[k].title == s[k].title && r[k].userId == s[k].userId)
      && (forall k :: 0 <= k < |s| && s[k].id != id ==> r[k] == s[k])
  {
    var r := PatchById(s, id, SetComplete(!current));
    assert Ids(r) == Ids(s);
  }

  /** Toggling an entry from `current` and then from `!current` restores the
      list, when `current` was the flag the entries with that identifier
      showed (the checkbox passes `todo.is_complete`). */
  lemma {:induction false} ToggleTwiceRestores(s: seq<Todo>, id: TaskId, current: bool)
    requires forall k :: 0 <= k < |s| && s[k].id == id ==> s[k].isComplete == current
    ensures PatchById(PatchById(s, id, SetComplete(!current)), id, SetComplete(current)) == s
  {
    var r := PatchById(PatchById(s, id, SetComplete(!current)), id, SetComplete(current));
    forall k | 0 <= k < |s| ensures r[k] == s[k] {
      if s[k].id == id {
        assert r[k] == s[k].(isComplete := current);
      }
    }
  }

  /** The checkbox passes the row's own flag (`toggleTodo(todo.id,
      todo.is_complete)`); with unique identifiers, toggling that row and
      then toggling it back restores the list. */
  lemma ToggleTwiceFromRow(s: seq<Todo>, k: nat)
    requires UniqueIds(s) && k < |s|
    ensures PatchById(PatchById(s, s[k].id, SetComplete(!s[k].isComplete)), s[k].id, SetComplete(s[k].isComplete)) == s
  {
    ToggleTwiceRestores(s, s[k].id, s[k].isComplete);
  }

  // ---------------------------------------------------------------------
  // Editing a title
  // ---------------------------------------------------------------------

  /** Saving an edit: the entries with identifier `id` take the new title and
      keep their completion flag and owner; every other entry is unchanged. */
  lemma RetitleSpec(s: seq<Todo>, id: TaskId, title: string)
    ensures var r := PatchById(s, id, SetTitle(title));
      |r| == |s| && Ids(r) == Ids(s)
      && (forall k :: 0 <= k < |s| && s[k].id == id ==>
            r[k].title == title && r[k].isComplete == s[k].isComplete && r[k].userId == s[k].userId)
      && (forall k :: 0 <= k < |s| && s[k].id != id ==> r[k] == s[k])
  {
    var r := PatchById(s, id, SetTitle(title));
    assert Ids(r) == Ids(s);
  }

  /** Patching an identifier that no entry carries leaves the list as it is. */
  lemma {:induction false} PatchAbsentIsIdentity(s: seq<Todo>, id: TaskId, p: Patch)
    requires !HasId(s, id)
    ensures PatchById(s, id, p) == s
  {
    var r := PatchById(s, id, p);
    forall k | 0 <= k < |s| ensures r[k] == s[k] {
      assert s[k].id != id;
    }
  }

  /** Patching keeps the identifiers, so it keeps them unique. */
  lemma {:induction false} PatchKeepsUniqueIds(s: seq<Todo>, id: TaskId, p: Patch)
    requires UniqueIds(s)
    ensures UniqueIds(PatchById(s, id, p))
  {
    var r := PatchById(s, id, p);
    forall i, j | 0 <= i < j < |r| ensures r[i].id != r[j].id {
      assert r[i].id == s[i].id && r[j].id == s[j].id;
    }
  }

  // ---------------------------------------------------------------------
  // Deleting
  // ---------------------------------------------------------------------

  /** Deleting keeps the surviving entries in their original relative order. */
  lemma {:induction false} RemoveIsSubsequence(s: seq<Todo>, id: TaskId)
    ensures Subsequence(RemoveById(s, id), s)
  {
    if s != [] {
      RemoveIsSubsequence(s[1..], id);
      var r := RemoveById(s, id);
      if s[0].id == id {
        assert r == RemoveById(s[1..], id);
        if r != [] {
          assert r[0] in r;
        }
      } else {
        assert r == [s[0]] + RemoveById(s[1..], id);
        assert r[1..] == RemoveById(s[1..], id);
      }
    }
  }

  /** Deleting drops every copy of an entry with identifier `id` and keeps
      every copy of every other entry. */
  lemma {:induction false} RemoveMultiset(s: seq<Todo>, id: TaskId, t: Todo)
    ensures multiset(RemoveById(s, id))[t] == if t.id == id then 0 else multiset(s)[t]
  {
    if s != [] {
      var head := if s[0].id == id then [] else [s[0]];
      var rest := RemoveById(s[1..], id);
      RemoveMultiset(s[1..], id, t);
      calc {
        multiset(RemoveById(s, id))[t];
        { assert RemoveById(s, id) == head + rest; }
        multiset(head + rest)[t];
        multiset(head)[t] + multiset(rest)[t];
      }
      assert s == [s[0]] + s[1..];
      assert multiset(s)[t] == multiset([s[0]])[t] + multiset(s[1..])[t];
    }
  }

  /** Deleting removes exactly the entries that carry identifier `id`. */
  lemma {:induction false} RemoveCount(s: seq<Todo>, id: TaskId)
    ensures |RemoveById(s, id)| == |s| - CountId(s, id)
    ensures !HasId(RemoveById(s, id), id)
  {
    if s != [] {
      RemoveCount(s[1..], id);
    }
  }

  /** Deleting an identifier that no entry carries leaves the list as it is. */
  lemma {:induction false} RemoveAbsentIsIdentity(s: seq<Todo>, id: TaskId)
    requires !HasId(s, id)
    ensures RemoveById(s, id) == s
  {
    if s != [] {
      assert s[0].id != id;
      assert !HasId(s[1..], id) by {
        forall k | 0 <= k < |s| - 1 ensures s[1..][k].id != id {
          assert s[1..][k] == s[k + 1];
        }
      }
      RemoveAbsentIsIdentity(s[1..], id);
      assert s == [s[0]] + s[1..];
    }
  }

  /** With unique identifiers an identifier occurs at most once. */
  lemma {:induction false} UniqueCountAtMostOne(s: seq<Todo>, id: TaskId)
    requires UniqueIds(s)
    ensures CountId(s, id) <= 1
  {
    if s != [] {
      assert UniqueIds(s[1..]) by {
        forall i, j | 0 <= i < j < |s| - 1 ensures s[1..][i].id != s[1..][j].id {
          assert s[1..][i] == s[i + 1] && s[1..][j] == s[j + 1];
        }
      }
      UniqueCountAtMostOne(s[1..], id);
      if s[0].id == id {
        assert !HasId(s[1..], id) by {
          forall k | 0 <= k < |s| - 1 ensures s[1..][k].id != id {
            assert s[1..][k] == s[k + 1];
          }
        }
      }
    }
  }

  /** Deleting a task that is shown, from a list with unique identifiers,
      removes exactly one entry. */
  lemma DeletePresentRemovesOne(s: seq<Todo>, id: TaskId)
    requires UniqueIds(s) && HasId(s, id)
    ensures |RemoveById(s, id)| == |s| - 1
  {
    RemoveCount(s, id);
    UniqueCountAtMostOne(s, id);
  }

  /** Deleting keeps the identifiers unique. */
  lemma {:induction false} RemoveKeepsUniqueIds(s: seq<Todo>, id: TaskId)
    requires UniqueIds(s)
    ensures UniqueIds(RemoveById(s, id))
  {
    if s != [] {
      var tail := s[1..];
      assert UniqueIds(tail) by {
        forall i, j | 0 <= i < j < |tail| ensures tail[i].id != tail[j].id {
          assert tail[i] == s[i + 1] && tail[j] == s[j + 1];
        }
      }
      RemoveKeepsUniqueIds(tail, id);
      var rest := RemoveById(tail, id);
      if s[0].id != id {
        var r := [s[0]] + rest;
        assert r == RemoveById(s, id);
        forall j | 0 < j < |r| ensures r[0].id != r[j].id {
          assert r[j] in rest;
          assert r[j] in tail;
          var m :| 0 <= m < |tail| && tail[m] == r[j];
          assert tail[m] == s[m + 1];
        }
      }
    }
  }

  // ---------------------------------------------------------------------
  // Adding
  // ---------------------------------------------------------------------

  /** `[data[0], ...todos]` keeps identifiers unique exactly when the new
      row's identifier is not already shown. */
  lemma PrependUniqueIds(row: Todo, s: seq<Todo>)
    requires UniqueIds(s)
    ensures UniqueIds([row] + s) <==> !HasId(s, row.id)
  {
    var r := [row] + s;
    if !HasId(s, row.id) {
      forall i, j | 0 <= i < j < |r| ensures r[i].id != r[j].id {
        assert r[j] == s[j - 1];
        if i > 0 { assert r[i] == s[i - 1]; }
      }
    } else {
      var k :| 0 <= k < |s| && s[k].id == row.id;
      assert r[0].id == r[k + 1].id;
      assert !UniqueIds(r);
    }
  }
}
