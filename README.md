# CoreSense task store and performance booster — a Dafny model

CoreSense is a desktop application that combines a personal task list with a
system dashboard. This project models its two pieces of logic and proves
properties about them:

- **The task store** (`TaskManager` in core/task_manager.py). It is an ordered
  list of task records (id, description, priority, status, creation time) plus a
  `next_id` counter. It supports add, lookup by id, field patching, status change,
  deletion, filtering by status and summary statistics. In the model,
  `TaskStore.TaskManager` is a class. Its `tasks: seq<Task>` and `nextId: nat`
  fields are updated the same way the Python methods update theirs. Pure functions
  on `seq<Task>` (`FirstIndex`, `Updated`, `Deleted`, `TasksByStatus`,
  `GetStatistics`) specify those updates. The lemmas about them show three things:
  ids are handed out from a counter that only grows, an unknown id leaves the store
  untouched, and only the fields that were named change.
- **The performance booster's triage** (gui/performance_panel.py). `run_booster`
  and `handle_processes` go through the list of heavy processes. For each one they
  decide whether to skip it, kill it or lower its priority. `_save_history_entry`
  keeps a bounded history of boosts, newest first. The model does not kill or
  reprioritise anything. It emits what would be done as `Booster.Action` values,
  in the order the panel would issue them. The panel's own process id is a
  parameter.

Module layout: `Wrappers` (Option), `Text` (ASCII lower-casing and Python's
substring test), `TaskStore`, `Booster`.

`add_task` accepts any description, and `update_task` stores any value as
priority or status. So both are strings here, with the constants `"Medium"`,
`"Pending"` and `"Completed"` that core/task_manager.py uses.

Points the proofs bring out:

- `SafeNamesReduce`: the check `any(s in name for s in safe_names)` in
  `run_booster` reduces to "coresense", "py" or "main", because "python" and
  "pythonw" already contain "py". So any process whose name contains "py" (say
  "happy.exe") is never killed by `run_booster`. `handle_processes` checks no safe
  names and can kill it.
- `FastDeepMayKillSelf`: in fast and deep mode, `handle_processes` does not check
  the panel's own process id. If that process is unprotected and above the mode's
  cpu threshold, it is killed like any other. Only extreme mode skips it. Nothing
  in gui/ or main.py calls `handle_processes`.
- `RemoveFirstAtFirstMatch`: `delete_task` removes a record with `list.remove`,
  which drops the first element *equal* to it. The lemma proves this is exactly
  the position where `get_task` found it, because an earlier equal record would
  have had the same id.

## Model

| member | source | states |
|---|---|---|
| `TaskStore.FirstIndex` | core/task_manager.py:63-66 | the position the lookup stops at: no earlier task has the id, the task there has it, and the end of the list is reached exactly when no task has the id |
| `TaskStore.FirstIndexUnique` | core/task_manager.py:63-66 | when ids are distinct, the first match is the only task with that id |
| `TaskStore.TaskManager.FindIndex` | core/task_manager.py:63-66 | the search loop stops at the first task with the id, or at the end when there is none |
| `TaskStore.TaskManager.GetTask` | core/task_manager.py:53-66 | returns None exactly when no task has the id; otherwise returns a stored task with that id, and no earlier task has that id |
| `TaskStore.TaskManager.GetAllTasks` | core/task_manager.py:68-75 | returns the stored list itself, in insertion order |
| `TaskStore.TaskManager.constructor` | core/task_manager.py:15-27 | starts with no tasks and counter 1, which satisfies the id invariant; if a stored document was read, its tasks or [] and its next_id or 1 replace them (lines 172-173) |
| `TaskStore.TaskManager.AddTask` | core/task_manager.py:29-51 | returns the counter's value before the call, raises the counter by exactly 1, and appends exactly one record (with the given description, priority and status, defaulting to Medium and Pending) after the unchanged earlier tasks; keeps the id invariant |
| `TaskStore.AddedKeepsIds` | core/task_manager.py:41-50 | adding a task whose id is the counter, then bumping the counter, keeps every id below the counter and all ids distinct, and the new task is the one a lookup of its id finds |
| `TaskStore.Patch` | core/task_manager.py:92-97 | every field passed as non-None takes the new value; every None field, the id and the creation time keep their old values |
| `TaskStore.Updated` | core/task_manager.py:90-99 | the list after an update keeps its length and every task's id, and equals the old list when no task has the id |
| `TaskStore.TaskManager.UpdateTask` | core/task_manager.py:77-99 | returns True exactly when some task has the id; the new list is the old one with only the first task with that id patched; the counter is unchanged; keeps the id invariant |
| `TaskStore.UpdatedChangesOnlyTarget` | core/task_manager.py:90-99 | an update keeps the length, changes nothing for an unknown id, leaves every other task equal, keeps every id and creation time, and patches the found task |
| `TaskStore.UpdatedKeepsIds` | core/task_manager.py:90-99 | an update keeps every id below the counter and all ids distinct |
| `TaskStore.TaskManager.UpdateTaskStatus` | core/task_manager.py:101-112 | has exactly the effect and the result of an update that passes only the status |
| `TaskStore.StatusUpdateOnlyStatus` | core/task_manager.py:112 | a status update replaces the found task's status and nothing else |
| `TaskStore.TaskManager.DeleteTask` | core/task_manager.py:114-128 | returns True exactly when some task has the id; the new list is the old one without the task found by id, and unchanged for an unknown id; the counter is unchanged; keeps the id invariant |
| `TaskStore.RemoveFirstAtFirstMatch` | core/task_manager.py:124-126 | `list.remove` on the task found by id cuts the list at exactly that position |
| `TaskStore.WithoutIdFilters` | core/task_manager.py:124-127 | the reference filter keeps no task with the id, and it is the identity when no task has the id |
| `TaskStore.WithoutIdSingle` | core/task_manager.py:124-127 | when exactly one task has the id, filtering it out cuts out exactly that task |
| `TaskStore.DeletedIsWithoutId` | core/task_manager.py:124-128 | when ids are distinct, deletion equals keeping every task whose id differs, in list order |
| `TaskStore.DeletedIdGone` | core/task_manager.py:124-128 | when ids are distinct, no task with the deleted id remains, so a later lookup finds nothing |
| `TaskStore.DeletedKeepsIds` | core/task_manager.py:124-127 | deletion keeps every id below the counter and all ids distinct |
| `TaskStore.RemoveFirst` | core/task_manager.py:126 | `list.remove` drops at most one element: the result is the list's length or one shorter |
| `TaskStore.Deleted` | core/task_manager.py:124-127 | deleting a known id shrinks the list by one; an unknown id, in particular one above every stored id (any id at or above the counter), leaves it equal |
| `TaskStore.TasksByStatus` | core/task_manager.py:140 | the result is no longer than the list, and every task in it has the requested status; with `TasksByStatusFromList`, `TasksByStatusComplete` and `TasksByStatusAppend` it is exactly the list's tasks with that status, in list order |
| `TaskStore.TasksByStatusFromList` | core/task_manager.py:140 | every task in the result is a task of the list: the filter adds nothing |
| `TaskStore.TasksByStatusSingle` | core/task_manager.py:140 | a one-task list keeps its task exactly when it has the status, otherwise yields nothing; with `TasksByStatusAppend` this fixes the result on every list |
| `TaskStore.TasksByStatusComplete` | core/task_manager.py:140 | every task with the requested status is in the result |
| `TaskStore.TasksByStatusAppend` | core/task_manager.py:140 | the filter distributes over concatenation, so results keep list order |
| `TaskStore.StatusCountsBound` | core/task_manager.py:188-189 | the counts for two different statuses add up to at most the number of tasks |
| `TaskStore.CompletionRate` | core/task_manager.py:195 | the rate lies in 0..100, is 0 when there are no tasks, and otherwise equals completed / total * 100 |
| `TaskStore.GetStatistics` | core/task_manager.py:187-196 | total is the list length; completed and pending are the sizes of the Completed and Pending filters; completed + pending <= total; the rate lies in 0..100, is 0 for an empty store, and is completed / total * 100 otherwise |
| `TaskStore.LoadedNextId` | core/task_manager.py:173 | the counter is the stored `next_id` when present, and 1 when it is missing |
| `TaskStore.TaskManager.GetTasksByStatus` | core/task_manager.py:130-140 | the store's filtered view is no longer than the store, and every task in it has the requested status; it is `TasksByStatus(tasks, status)`, so by `TasksByStatusFromList` and `TasksByStatusComplete` it holds exactly the stored tasks with that status, in store order (`TasksByStatusAppend`) |
| `TaskStore.TaskManager.Stats` | core/task_manager.py:180-196 | total is the store's size, completed + pending <= total, and the rate lies in 0..100 and is 0 for an empty store |
| `Text.Lower` | gui/performance_panel.py:121 | the result has the input's length, each character is the ASCII lower case of the input's character, and no upper-case ASCII letter is left |
| `Text.ContainsIffOccurs` | gui/performance_panel.py:133 | the substring scan holds exactly when the needle occurs at some position of the name |
| `Text.Contains` | gui/performance_panel.py:133 | the substring test `s in name` (also at line 200) holds only when the needle is no longer than the name, and always holds for the empty needle |
| `Booster.IsProtected` | gui/performance_panel.py:124 | the definition of the guard `pid in (0, 4) or name in ("system", "system idle process")`, which also stands at line 175; what it means for the decisions is proved in `BoosterKillRule` and `HandleNeverKillsProtected` |
| `Booster.ContainsAny` | gui/performance_panel.py:133 | `any(s in name for s in needles)` holds exactly when some fragment of the list is a substring of the name; the same test stands at line 200 |
| `Booster.NameOf` | gui/performance_panel.py:121 | a null name reads as "" and any other name as itself (`p['name'] or ""`, also at line 172) |
| `Booster.CpuOf` | gui/performance_panel.py:122 | a null cpu figure reads as 0.0 and any other as itself (`p['cpu'] or 0.0`, also at line 173) |
| `Booster.BoosterAction` | gui/performance_panel.py:119-138 | the decision for one candidate is a skip or a kill, and it names the candidate's pid |
| `Booster.RunBooster` | gui/performance_panel.py:116-142 | one decision per candidate, in input order, and nothing for an empty list; in deep mode the temp-file cleanup follows last; the pids killed are exactly the unguarded candidates, in input order, in every mode |
| `Booster.BoosterKillRule` | gui/performance_panel.py:124-138 | a candidate is killed exactly when all of these hold: its pid is not 0 or 4, its lower-cased name is not "system" or "system idle process", it is not the panel's own pid, and its name contains none of the safe fragments |
| `Booster.SafeNamesReduce` | gui/performance_panel.py:132-133 | a name matches the safe list exactly when it contains "coresense", "py" or "main" |
| `Booster.RunBoosterKillsInOrder` | gui/performance_panel.py:119-138 | the pids killed are exactly the unguarded candidates, each once, in input order |
| `Booster.HandleActions` | gui/performance_panel.py:170-205 | every action issued for a candidate names that candidate's pid and is never the temp-file cleanup |
| `Booster.HandleProcesses` | gui/performance_panel.py:169-205 | the loop issues, in input order, the concatenation of each candidate's actions |
| `Booster.HandlePlan` | gui/performance_panel.py:170-205 | the whole list issues at most two actions per candidate and never the temp-file cleanup |
| `Booster.ActionInPlan` | gui/performance_panel.py:170-205 | an action is issued for the list exactly when some candidate issues it |
| `Booster.FastModeRule` | gui/performance_panel.py:179-185 | in fast mode an unprotected candidate first has its priority lowered, and is killed exactly when its cpu is above 85 |
| `Booster.DeepModeRule` | gui/performance_panel.py:187-192 | in deep mode an unprotected candidate first has its priority lowered, and is killed exactly when its cpu is above 70 |
| `Booster.FastModeKills` | gui/performance_panel.py:175-185 | fast mode kills pid x exactly when some unprotected candidate with pid x has cpu above 85 |
| `Booster.DeepModeKills` | gui/performance_panel.py:175-192 | deep mode kills pid x exactly when some unprotected candidate with pid x has cpu above 70 |
| `Booster.LoweredInFastAndDeep` | gui/performance_panel.py:175-192 | in fast and deep mode, the priority of pid x is lowered exactly when some unprotected candidate has pid x |
| `Booster.ExtremeModeKills` | gui/performance_panel.py:194-202 | in extreme mode, pid x is killed exactly when some candidate with pid x is unprotected, is not the panel's own pid, and has a lower-cased name containing "chrome", "firefox", "edge" or "code" |
| `Booster.ExtremeModeLowers` | gui/performance_panel.py:194-205 | in extreme mode, the priority of pid x is lowered exactly when some candidate with pid x is unprotected, is not the panel's own pid, and matches none of those fragments |
| `Booster.HandleNeverKillsProtected` | gui/performance_panel.py:175-198 | pids 0 and 4 are never killed in any mode, and extreme mode never kills the panel's own pid |
| `Booster.FastDeepMayKillSelf` | gui/performance_panel.py:179-192 | in fast mode above 85 and in deep mode above 70, an unprotected candidate is killed even when it is the panel's own process (neither branch checks the own pid) |
| `Booster.UnknownModeOnlySkips` | gui/performance_panel.py:175-205 | for a mode other than fast, deep and extreme, the only actions issued are protected skips |
| `Booster.SaveHistoryEntry` | gui/performance_panel.py:223-224 | the new entry comes first, then the older entries in their order; the history keeps min(old length + 1, 30) entries |
| `Booster.Recorded` | gui/performance_panel.py:223-224 | the recorded history has min(old length + 1, 30) entries, the new entry first, then the older entries in their order |
| `Booster.RecordAllNewestFirst` | gui/performance_panel.py:223-224 | after any run of boosts, the history is the new entries newest first, then the older history, cut to 30 |

## Left out

- File I/O: `save_to_file`, the file reading of `load_from_file`, and the JSON reading and writing in `_save_history_entry` and `show_history` are external effects. The constructor takes the document `load_from_file` would have read (or none, when the file is missing or unreadable) and applies the defaults of lines 172-173.
- TaskStore.TaskManager.constructor: line 172 stores whatever the document holds, and the model does not capture these cases:
  - a `next_id` that is not a natural number;
  - a `tasks` key that is JSON null or not a list;
  - records with extra keys;
  - records missing `id` (`get_task`, and so `update_task` and `delete_task`, raise KeyError when the scan reaches one);
  - records missing `status` (`get_tasks_by_status` and `get_statistics` raise KeyError);
  - elements of `tasks` that are not objects (`get_task` raises TypeError).
  `StoredDocument` maps a key that is present but null to the same `None` as a missing key, so the model gives it the default, while Python stores the null.
- TaskStore.TaskManager.GetTask and TaskStore.TaskManager.GetAllTasks: Python returns references to the live dict and list, so a caller could mutate the store through them. The model returns values and does not capture that aliasing.
- Text.Lower: models `str.lower()` on ASCII letters only. Unicode case mapping is not modelled.
- Task ids and the lookup id are `nat`. Python compares ids with `==` and accepts any type, so a lookup id of `2.0` or `True` also matches an integer id. The model does not capture ids of other types.
- Time stamps (`datetime.now()`) are opaque string inputs: `createdAt` for tasks, `time` for history entries.
- The cpu figure is a `real` and `completion_rate` is an exact `real`. Floating-point rounding is not modelled. Python returns the integer 0 for an empty store, which the model writes as 0.0.
- The booster's output text (skip and kill messages, the performance report), the `(ok, msg)` result of `kill_process`, `scan_only`, `show_history`, `show_last_graphs` and the matplotlib graphs are display only and are not modelled.
- Threads and timing: `start_boost`, `safe_run` and their threads, the background temp-file thread (modelled only as the emitted `TempFilesCleared`), and `time.sleep`.
- The CPU and memory measurements before and after a boost, and the `_last_boost` record, are not modelled. A history entry carries its figures as opaque inputs.
- core/system_monitor.py defines none of `get_heavy_processes`, `lower_priority` and `clear_temp_files`. As written, line 114 therefore raises AttributeError, which `safe_run` (lines 74-78) shows as an error. The model takes their results as the input list and the emitted actions, and does not model how they would select processes.
- Booster.SaveHistoryEntry: a history file holding JSON that is not a list makes `insert` raise, and the error is swallowed. The model takes the history as a list.
- core/system_monitor.py, gui/monitor_panel.py, gui/task_panel.py, gui/main_window.py and main.py (psutil wrappers and widget layout) are not part of this model.
