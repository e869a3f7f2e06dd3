/** The in-memory task store of core/task_manager.py: an ordered list of task
    records and the counter that supplies the next task id. */
module TaskStore {
  import opened Wrappers

  const DefaultPriority: string := "Medium"
  const DefaultStatus: string := "Pending"
  const Completed: string := "Completed"
  const Pending: string := "Pending"

  /** One task record. `createdAt` is the formatted creation time, an opaque input here. */
  datatype Task = Task(id: nat, description: string, priority: string, status: string, createdAt: string)

  /** The aggregate figures of `get_statistics`. */
  datatype Statistics = Statistics(total: nat, completed: nat, pending: nat, completionRate: real)

  /** The JSON document `load_from_file` reads; each key may be missing. */
  datatype StoredDocument = StoredDocument(tasks: Option<seq<Task>>, nextId: Option<nat>)

  // ---------------------------------------------------------------------------
  // Invariants of the id counter

  predicate HasId(s: seq<Task>, id: nat) {
    exists k :: 0 <= k < |s| && s[k].id == id
  }

  /** Every stored id is below the counter. */
  predicate IdsBelow(s: seq<Task>, n: nat) {
    forall k :: 0 <= k < |s| ==> s[k].id < n
  }

  /** No two stored tasks share an id. */
  predicate DistinctIds(s: seq<Task>) {
    forall i, j :: 0 <= i < j < |s| ==> s[i].id != s[j].id
  }

  // ---------------------------------------------------------------------------
  // Lookup

  /** Position of the first task with id `id`, or `|s|` when there is none. */
  function FirstIndex(s: seq<Task>, id: nat): (k: nat)
    ensures k <= |s|
    ensures forall j :: 0 <= j < k ==> s[j].id != id
    ensures k < |s| ==> s[k].id == id
    ensures k == |s| <==> !HasId(s, id)
  {
    if s == [] then 0
    else if s[0].id == id then 0
    else 1 + FirstIndex(s[1..], id)
  }

  /** With distinct ids, the first match is the only match. */
  lemma FirstIndexUnique(s: seq<Task>, id: nat, k: nat)
    requires DistinctIds(s)
    requires k < |s| && s[k].id == id
    ensures FirstIndex(s, id) == k
  {
  }

  // ---------------------------------------------------------------------------
  // Update

  /** A task with each given field replaced and every other field kept. */
  function Patch(t: Task, description: Option<string>, priority: Option<string>, status: Option<string>): (r: Task)
    ensures r.id == t.id && r.createdAt == t.createdAt
    ensures description.None? ==> r.description == t.description
    ensures description.Some? ==> r.description == description.value
    ensures priority.None? ==> r.priority == t.priority
    ensures priority.Some? ==> r.priority == priority.value
    ensures status.None? ==> r.status == t.status
    ensures status.Some? ==> r.status == status.value
  {
    t.(description := description.GetOr(t.description),
       priority := priority.GetOr(t.priority),
       status := status.GetOr(t.status))
  }

  /** The task list after `update_task`: the first task with `id` patched. */
  function Updated(s: seq<Task>, id: nat, description: Option<string>, priority: Option<string>, status: Option<string>): (r: seq<Task>)
    ensures |r| == |s|
    ensures !HasId(s, id) ==> r == s
    ensures forall j :: 0 <= j < |s| ==> r[j].id == s[j].id
  {
    var k := FirstIndex(s, id);
    if k < |s| then s[k := Patch(s[k], description, priority, status)] else s
  }

  /** An update touches exactly the first task with `id`, and only its given fields;
      for an unknown id it changes nothing. */
  lemma UpdatedChangesOnlyTarget(s: seq<Task>, id: nat, description: Option<string>, priority: Option<string>, status: Option<string>)
    ensures var r := Updated(s, id, description, priority, status);
      && |r| == |s|
      && (!HasId(s, id) ==> r == s)
      && (forall j :: 0 <= j < |s| && j != FirstIndex(s, id) ==> r[j] == s[j])
      && (forall j :: 0 <= j < |s| ==> r[j].id == s[j].id && r[j].createdAt == s[j].createdAt)
      && (HasId(s, id) ==> r[FirstIndex(s, id)] == Patch(s[FirstIndex(s, id)], description, priority, status))
  {
  }

  /** An update keeps the id invariants. */
  lemma UpdatedKeepsIds(s: seq<Task>, n: nat, id: nat, description: Option<string>, priority: Option<string>, status: Option<string>)
    requires IdsBelow(s, n) && DistinctIds(s)
    ensures IdsBelow(Updated(s, id, description, priority, status), n)
    ensures DistinctIds(Updated(s, id, description, priority, status))
  {
    UpdatedChangesOnlyTarget(s, id, description, priority, status);
  }

  /** `update_task_status(id, s)` is `update_task(id, status=s)`: only the status moves. */
  lemma StatusUpdateOnlyStatus(s: seq<Task>, id: nat, status: string)
    requires HasId(s, id)
    ensures var r := Updated(s, id, None, None, Some(status));
      var k := FirstIndex(s, id);
      r == s[k := s[k].(status := status)]
  {
  }

  // ---------------------------------------------------------------------------
  // Deletion

  /** Python's `list.remove(x)`: drop the first element equal to `x`. For an `x`
      not in `s` this returns `s`, where Python raises `ValueError`; `delete_task`
      only removes a task it has just found in the list, so that case never arises. */
  function RemoveFirst(s: seq<Task>, x: Task): (r: seq<Task>)
    ensures |s| - 1 <= |r| <= |s|
  {
    if s == [] then []
    else if s[0] == x then s[1..]
    else [s[0]] + RemoveFirst(s[1..], x)
  }

  /** Removing the task found by id removes it at the position where it was found:
      an earlier equal record would have had the same id. */
  lemma {:induction false} RemoveFirstAtFirstMatch(s: seq<Task>, k: nat)
    requires k < |s|
    requires forall j :: 0 <= j < k ==> s[j].id != s[k].id
    ensures RemoveFirst(s, s[k]) == s[..k] + s[k + 1..]
  {
    if k == 0 {
      assert s[..0] + s[1..] == s[1..];
    } else {
      var rest := s[1..];
      assert s[0].id != s[k].id;
      assert RemoveFirst(s, s[k]) == [s[0]] + RemoveFirst(rest, s[k]);
      assert rest[k - 1] == s[k];
      assert forall j :: 0 <= j < k - 1 ==> rest[j].id != rest[k - 1].id by {
        assert forall j :: 0 <= j < k - 1 ==> rest[j] == s[j + 1];
      }
      RemoveFirstAtFirstMatch(rest, k - 1);
      assert s[..k] == [s[0]] + rest[..k - 1];
      assert s[k + 1..] == rest[k..];
    }
  }

  /** The task list after `delete_task`. */
  function Deleted(s: seq<Task>, id: nat): (r: seq<Task>)
    ensures HasId(s, id) ==> |r| == |s| - 1
    ensures !HasId(s, id) ==> r == s
    ensures IdsBelow(s, id) ==> r == s
  {
    var k := FirstIndex(s, id);
    if k < |s| then s[..k] + s[k + 1..] else s
  }

  /** Reference definition for deletion: keep every task whose id differs. */
  function WithoutId(s: seq<Task>, id: nat): seq<Task>
  {
    if s == [] then []
    else if s[0].id == id then WithoutId(s[1..], id)
    else [s[0]] + WithoutId(s[1..], id)
  }

  /** No task with `id` survives the filter, and the others all do, in order. */
  lemma {:induction false} WithoutIdFilters(s: seq<Task>, id: nat)
    ensures forall j :: 0 <= j < |WithoutId(s, id)| ==> WithoutId(s, id)[j].id != id
    ensures (forall j :: 0 <= j < |s| ==> s[j].id != id) ==> WithoutId(s, id) == s
  {
    if s != [] {
      WithoutIdFilters(s[1..], id);
    }
  }

  /** Filtering out an id held by exactly one task cuts that task out. */
  lemma {:induction false} WithoutIdSingle(s: seq<Task>, k: nat)
    requires k < |s|
    requires forall j :: 0 <= j < |s| && j != k ==> s[j].id != s[k].id
    ensures WithoutId(s, s[k].id) == s[..k] + s[k + 1..]
  {
    var id := s[k].id;
    var rest := s[1..];
    if k == 0 {
      WithoutIdFilters(rest, id);
      assert forall j :: 0 <= j < |rest| ==> rest[j] == s[j + 1];
      assert s[..0] + s[1..] == rest;
    } else {
      assert rest[k - 1] == s[k];
      assert forall j :: 0 <= j < |rest| && j != k - 1 ==> rest[j] == s[j + 1];
      WithoutIdSingle(rest, k - 1);
      assert s[..k] + s[k + 1..] == [s[0]] + (rest[..k - 1] + rest[k..]);
    }
  }

  /** With distinct ids, deleting removes exactly the task with that id and keeps
      the others in their order. */
  lemma DeletedIsWithoutId(s: seq<Task>, id: nat)
    requires DistinctIds(s)
    ensures Deleted(s, id) == WithoutId(s, id)
  {
    var k := FirstIndex(s, id);
    if k < |s| {
      WithoutIdSingle(s, k);
    }
  }

  /** After deleting, no task with that id remains (a later `get_task` finds nothing). */
  lemma DeletedIdGone(s: seq<Task>, id: nat)
    requires DistinctIds(s)
    ensures !HasId(Deleted(s, id), id)
  {
    DeletedIsWithoutId(s, id);
    WithoutIdFilters(s, id);
  }

  /** Deletion keeps the id invariants. */
  lemma DeletedKeepsIds(s: seq<Task>, n: nat, id: nat)
    requires IdsBelow(s, n) && DistinctIds(s)
    ensures IdsBelow(Deleted(s, id), n)
    ensures DistinctIds(Deleted(s, id))
  {
    var k := FirstIndex(s, id);
    if k < |s| {
      var r := Deleted(s, id);
      assert forall j :: 0 <= j < |r| ==> r[j] == (if j < k then s[j] else s[j + 1]);
    }
  }

  // ---------------------------------------------------------------------------
  // Insertion

  /** Appending a task that carries the counter value, then bumping the counter,
      keeps the id invariants, and the new task is the one found by its id. */
  lemma AddedKeepsIds(s: seq<Task>, n: nat, t: Task)
    requires IdsBelow(s, n) && DistinctIds(s)
    requires t.id == n
    ensures IdsBelow(s + [t], n + 1)
    ensures DistinctIds(s + [t])
    ensures FirstIndex(s + [t], n) == |s|
  {
    assert (s + [t])[|s|].id == n;
  }

  // ---------------------------------------------------------------------------
  // Queries

  /** `get_tasks_by_status`: the tasks whose status is `status`, in list order. */
  function TasksByStatus(s: seq<Task>, status: string): (r: seq<Task>)
    ensures |r| <= |s|
    ensures forall j :: 0 <= j < |r| ==> r[j].status == status
  {
    if s == [] then []
    else if s[0].status == status then [s[0]] + TasksByStatus(s[1..], status)
    else TasksByStatus(s[1..], status)
  }

  /** Every task with the requested status is in the result. */
  lemma {:induction false} TasksByStatusComplete(s: seq<Task>, status: string, j: nat)
    requires j < |s| && s[j].status == status
    ensures s[j] in TasksByStatus(s, status)
  {
    if j > 0 {
      TasksByStatusComplete(s[1..], status, j - 1);
    }
  }

  /** The result holds only tasks of the list: the filter adds nothing. */
  lemma {:induction false} TasksByStatusFromList(s: seq<Task>, status: string)
    ensures forall j :: 0 <= j < |TasksByStatus(s, status)| ==> TasksByStatus(s, status)[j] in s
  {
    if s != [] {
      TasksByStatusFromList(s[1..], status);
      var r := TasksByStatus(s, status);
      forall j | 0 <= j < |r| ensures r[j] in s {
        if s[0].status == status && j == 0 {
          assert r[0] == s[0];
        } else {
          var k := if s[0].status == status then j - 1 else j;
          assert r[j] == TasksByStatus(s[1..], status)[k];
          assert r[j] in s[1..];
        }
      }
    }
  }

  /** Filtering a single task keeps it exactly when it has the status; with
      `TasksByStatusAppend` this fixes the filter on every list. */
  lemma TasksByStatusSingle(t: Task, status: string)
    ensures TasksByStatus([t], status) == if t.status == status then [t] else []
  {
    assert [t][1..] == [];
  }

  /** Filtering distributes over concatenation, so the result keeps list order. */
  lemma {:induction false} TasksByStatusAppend(a: seq<Task>, b: seq<Task>, status: string)
    ensures TasksByStatus(a + b, status) == TasksByStatus(a, status) + TasksByStatus(b, status)
  {
    if a == [] {
      assert a + b == b;
    } else {
      assert (a + b)[0] == a[0];
      assert (a + b)[1..] == a[1..] + b;
      TasksByStatusAppend(a[1..], b, status);
    }
  }

  /** Two different statuses pick disjoint parts of the list. */
  lemma {:induction false} StatusCountsBound(s: seq<Task>, a: string, b: string)
    requires a != b
    ensures |TasksByStatus(s, a)| + |TasksByStatus(s, b)| <= |s|
  {
    if s != [] {
      StatusCountsBound(s[1..], a, b);
    }
  }

  /** `completed / total * 100 if total > 0 else 0`: the percentage of completed tasks. */
  function CompletionRate(completed: nat, total: nat): (rate: real)
    requires completed <= total
    ensures 0.0 <= rate <= 100.0
    ensures total == 0 ==> rate == 0.0
    ensures total > 0 ==> rate * (total as real) == (completed as real) * 100.0
  {
    if total > 0 then
      var q := (completed as real) / (total as real);
      assert q * (total as real) == completed as real;
      assert q <= 1.0 by {
        if q > 1.0 {
          assert q * (total as real) > 1.0 * (total as real);
        }
      }
      q * 100.0
    else 0.0
  }

  /** `get_statistics`. */
  function GetStatistics(s: seq<Task>): (r: Statistics)
    ensures r.total == |s|
    ensures r.completed == |TasksByStatus(s, Completed)|
    ensures r.pending == |TasksByStatus(s, Pending)|
    ensures r.completed + r.pending <= r.total
    ensures 0.0 <= r.completionRate <= 100.0
    ensures r.total == 0 ==> r.completionRate == 0.0
    ensures r.total > 0 ==> r.completionRate * (r.total as real) == (r.completed as real) * 100.0
  {
    var completed := |TasksByStatus(s, Completed)|;
    StatusCountsBound(s, Completed, Pending);
    Statistics(|s|, completed, |TasksByStatus(s, Pending)|, CompletionRate(completed, |s|))
  }

  /** The id counter `load_from_file` installs: the stored one, else 1. */
  function LoadedNextId(doc: StoredDocument): (n: nat)
    ensures doc.nextId.None? ==> n == 1
    ensures doc.nextId.Some? ==> n == doc.nextId.value
  {
    doc.nextId.GetOr(1)
  }

  // ---------------------------------------------------------------------------
  // The store object

  class TaskManager {
    var tasks: seq<Task>
    var nextId: nat

    /** The id discipline the store keeps once it holds: ids are below the counter
        and pairwise distinct. */
    ghost predicate Valid()
      reads this
    {
      IdsBelow(tasks, nextId) && DistinctIds(tasks)
    }

    /** `__init__`: an empty store with counter 1, then the contents of the stored
        document, if one could be read, with its missing keys defaulted. */
    constructor (stored: Option<StoredDocument>)
      ensures stored.None? ==> tasks == [] && nextId == 1 && Valid()
      ensures stored.Some? ==> tasks == stored.value.tasks.GetOr([])
      ensures stored.Some? ==> nextId == LoadedNextId(stored.value)
    {
      tasks := [];
      nextId := 1;
      if stored.Some? {
        tasks := stored.value.tasks.GetOr([]);
        nextId := LoadedNextId(stored.value);
      }
    }

    /** `add_task`: the new task takes the current counter value as its id. */
    method AddTask(description: string, createdAt: string,
                   priority: string := DefaultPriority, status: string := DefaultStatus)
      returns (id: nat)
      modifies this
      ensures id == old(nextId)
      ensures nextId == old(nextId) + 1
      ensures tasks == old(tasks) + [Task(id, description, priority, status, createdAt)]
      ensures old(Valid()) ==> Valid()
    {
      var task := Task(nextId, description, priority, status, createdAt);
      if Valid() {
        AddedKeepsIds(tasks, nextId, task);
      }
      tasks := tasks + [task];
      nextId := nextId + 1;
      id := task.id;
    }

    /** The search loop of `get_task`, giving the position it stops at. */
    method FindIndex(id: nat) returns (k: nat)
      ensures k <= |tasks|
      ensures forall j :: 0 <= j < k ==> tasks[j].id != id
      ensures k < |tasks| ==> tasks[k].id == id
    {
      k := 0;
      while k < |tasks|
        invariant k <= |tasks|
        invariant forall j :: 0 <= j < k ==> tasks[j].id != id
      {
        if tasks[k].id == id {
          return;
        }
        k := k + 1;
      }
    }

    /** `get_task`: the first task with `id`, or none. */
    method GetTask(id: nat) returns (r: Option<Task>)
      ensures r.None? <==> forall j :: 0 <= j < |tasks| ==> tasks[j].id != id
      ensures r.Some? ==> exists k :: 0 <= k < |tasks| && tasks[k] == r.value && r.value.id == id
                                      && forall j :: 0 <= j < k ==> tasks[j].id != id
    {
      var k := FindIndex(id);
      if k < |tasks| {
        r := Some(tasks[k]);
      } else {
        r := None;
      }
    }

    /** `get_all_tasks`. */
    method GetAllTasks() returns (r: seq<Task>)
      ensures r == tasks
    {
      r := tasks;
    }

    /** `update_task`: patch the given fields of the first task with `id`. */
    method UpdateTask(id: nat, description: Option<string>, priority: Option<string>, status: Option<string>)
      returns (ok: bool)
      modifies this
      ensures ok == HasId(old(tasks), id)
      ensures tasks == Updated(old(tasks), id, description, priority, status)
      ensures nextId == old(nextId)
      ensures old(Valid()) ==> Valid()
    {
      if Valid() {
        UpdatedKeepsIds(tasks, nextId, id, description, priority, status);
      }
      var k := FindIndex(id);
      if k < |tasks| {
        var task := tasks[k];
        if description.Some? {
          task := task.(description := description.value);
        }
        if priority.Some? {
          task := task.(priority := priority.value);
        }
        if status.Some? {
          task := task.(status := status.value);
        }
        tasks := tasks[k := task];
        ok := true;
      } else {
        ok := false;
      }
    }

    /** `update_task_status`. */
    method UpdateTaskStatus(id: nat, status: string) returns (ok: bool)
      modifies this
      ensures ok == HasId(old(tasks), id)
      ensures tasks == Updated(old(tasks), id, None, None, Some(status))
      ensures nextId == old(nextId)
      ensures old(Valid()) ==> Valid()
    {
      ok := UpdateTask(id, None, None, Some(status));
    }

    /** `delete_task`: remove the task found by `id` with `list.remove`. */
    method DeleteTask(id: nat) returns (ok: bool)
      modifies this
      ensures ok == HasId(old(tasks), id)
      ensures tasks == Deleted(old(tasks), id)
      ensures nextId == old(nextId)
      ensures old(Valid()) ==> Valid()
    {
      if Valid() {
        DeletedKeepsIds(tasks, nextId, id);
      }
      var k := FindIndex(id);
      if k < |tasks| {
        RemoveFirstAtFirstMatch(tasks, k);
        tasks := RemoveFirst(tasks, tasks[k]);
        ok := true;
      } else {
        ok := false;
      }
    }

    /** `get_tasks_by_status`. */
    function GetTasksByStatus(status: string): (r: seq<Task>)
      reads this
      ensures |r| <= |tasks|
      ensures forall j :: 0 <= j < |r| ==> r[j].status == status
    {
      TasksByStatus(tasks, status)
    }

    /** `get_statistics`. */
    function Stats(): (r: Statistics)
      reads this
      ensures r.total == |tasks|
      ensures r.completed + r.pending <= r.total
      ensures 0.0 <= r.completionRate <= 100.0
      ensures r.total == 0 ==> r.completionRate == 0.0
    {
      GetStatistics(tasks)
    }
  }
}
