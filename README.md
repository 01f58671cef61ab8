# Gamified to-do list: levelling engine and task completion, in Dafny

This project models the RPG progression layer of a gamified to-do list
backend. That is everything in the CRUD layer that computes something
rather than only storing it.

- **The levelling engine** (`backend/app/crud/user.py`). `add_experience`
  credits experience points to a user. It then levels up while the points
  held reach the current level's threshold (`level * 100`), carrying the
  remainder into the new level. `add_gold` adds to the gold balance.
  `update_user` merges a partial profile update, storing a supplied password
  only through the hash function.
- **Task completion and the task table** (`backend/app/crud/task.py`).
  `update_task` applies a partial update. When the update asks for
  `is_completed = true` on an open task, it also does three things:
  - it stamps `completed_at`;
  - if the parent task is completed, it sets the task's streak to the
    parent's streak plus one;
  - it pays the owner the task's `experience_reward` and `gold_reward`.

  The file also holds `create_task`, `delete_task`, the lookup `get_task`
  and the list queries (by owner, by category, overdue, due today,
  subtasks).

Layout, one module per source component:

| file | module | models |
|---|---|---|
| `wrappers.dfy` | `Wrappers` | `Option` for nullable columns and missed lookups; `Patch` for one field of a partial update (left out, or set) |
| `progression.dfy` | `Progression` | the arithmetic of levelling: `Settle` is the level-up loop as a function, `Award` is "add, then settle", and the lemmas about both |
| `models.dfy` | `Models` | the `User` class, the `Task` record, the create and update payloads, the defaults |
| `user_crud.dfy` | `UserCrud` | `AddExperience` (the `while` loop, proved against `Award`), `AddGold`, `UpdateUser` |
| `task_crud.dfy` | `TaskCrud` | lookups and queries as functions over the rows; the update rules as functions with their lemmas; the `TaskTable` class with `CreateTask`, `DeleteTask` and `UpdateTask` |

How the code behaves, including where a reader might expect otherwise:

- The level-up loop stops for every starting level. Below level 1 each pass
  raises the level towards 1. From level 1 on, each pass removes at least 100
  points. So `AddExperience` has no precondition.
- One award can cross several thresholds. The threshold is recomputed after
  each level-up, though. So 250 points from a new account end on **level 2
  with 150 points**, not on level 3: after the first level-up the threshold is
  200. Level 3 needs 300 points (`OneLevelFor250`,
  `ThreeHundredReachesLevelThree`).
- Nothing rejects a negative award. It lowers the points held, below zero if
  large enough, and never lowers the level (`NegativeAwardKeepsLevel`).
  Splitting an award into two in a row is guaranteed exact when the second
  part is not negative (`AwardSplit`). A negative second part can break it
  (`AwardSplitNeedsNonNegativeSecond`).
- Completion is not one-way. An update with `is_completed = false` reopens a
  completed task. It leaves `completed_at` and the streak as they were and
  takes no reward back. Completing the task again pays the rewards again
  (`ReopenThenCompletePaysAgain`). Re-sending `is_completed = true` on a task
  that is still completed pays nothing (`CompletedTaskPaysNothing`).
- `completed_at` is written on every completion, and a later completion
  overwrites it.
- The parent test `if task.parent_id:` is a truthiness test. A parent id of
  0 is treated as no parent (`ParentLookup`).
- The task table is a sequence of rows in id order. The list queries apply
  offset and limit to that order.
- A new task gets the id the database (SQLite) gives a new row of an
  `INTEGER PRIMARY KEY` column without AUTOINCREMENT: one more than the
  largest id in the table, 1 for an empty table. The id of the newest task is
  therefore handed out again once that task is deleted (`NewestIdIsReused`).
- Deleting a task does not delete its subtasks. The `subtasks` relationship
  has no delete cascade, so the ORM sets each subtask's `parent_id` to NULL
  and the subtasks become top-level tasks (`Orphaned`,
  `DeleteRemovesOnlyThatTask`). A later task that reuses the deleted id
  therefore does not become their parent.

## Model

| member | source | states |
|---|---|---|
| `Progression.Threshold` | backend/app/crud/user.py:91-95 | the points needed to leave a level, `level * 100`: at least 100 from level 1 on, and always a multiple of 100 |
| `Progression.Settle` | backend/app/crud/user.py:91-95 | on exit the points held are below the level's threshold; the level never drops; total experience (`50*level*(level-1) + xp`) is conserved; from level >= 1 the points stay non-negative exactly when they started non-negative, and a negative balance is left alone |
| `Progression.SettledIsUnique` | backend/app/crud/user.py:88-95 | two standings that both satisfy the level-threshold invariant and have the same total experience are equal |
| `Progression.Award` | backend/app/crud/user.py:88-95 | crediting an amount and levelling up raises total experience by exactly the amount, never lowers the level, and leaves the points below the new level's threshold |
| `Progression.AwardKeepsSettled` | backend/app/crud/user.py:88-95 | a non-negative award keeps `1 <= level` and `0 <= xp < level*100` |
| `Progression.AwardIsDeterminedByTotal` | backend/app/crud/user.py:88-95 | from a settled standing, a non-negative award ends in the one settled standing whose total is the old total plus the award |
| `Progression.AwardZero` | backend/app/crud/user.py:88-95 | awarding 0 to a settled standing changes nothing |
| `Progression.NegativeAwardKeepsLevel` | backend/app/crud/user.py:88-92 | with no guard on the amount, a negative award keeps the level and lowers the points held by the amount, below zero if large enough |
| `Progression.AwardSplit` | backend/app/crud/user.py:88-95 | awarding `a1` then `a2` gives the same level and points as awarding `a1 + a2` once, from any level >= 1, when `a2 >= 0` |
| `Progression.AwardSplitNeedsNonNegativeSecond` | backend/app/crud/user.py:88-95 | a negative second award can break the split: from level L with no points, the threshold then -50 leaves level L+1 with -50 points, while the net award stays on level L |
| `Progression.ExactThresholdLevelsOnce` | backend/app/crud/user.py:92-95 | an award equal to the threshold on an empty balance is exactly one level-up, with 0 points carried |
| `Progression.CarryIntoNextLevel` | backend/app/crud/user.py:88-95 | level 1 with 90 points plus 20 gives level 2 with 10 points |
| `Progression.OneLevelFor250` | backend/app/crud/user.py:88-95 | a new account plus 250 points gives level 2 with 150 points (the next threshold is 200) |
| `Progression.ThreeHundredReachesLevelThree` | backend/app/crud/user.py:88-95 | a new account plus 300 points gives level 3 with 0 points |
| `Models.User.constructor` | backend/app/crud/user.py:25-35 | a new user takes the profile fields and the `is_active` and `is_superuser` flags from the payload and stores the password only as its hash; the game fields take their column defaults (models/user.py:20-22): level 1, 0 experience, 0 gold |
| `Models.TaskCreateWithDefaults` | backend/app/schemas/task.py:7-16 | a creation payload with only a title: no description, no due date, medium priority and difficulty, 10 experience, 5 gold, no parent, no category |
| `UserCrud.AddExperience` | backend/app/crud/user.py:83-100 | the loop leaves the user's level and points equal to `Award(old standing, amount)`: below the threshold, level not lowered, total raised by exactly the amount; gold and every other field unchanged |
| `UserCrud.AddGold` | backend/app/crud/user.py:102-111 | gold rises by exactly the amount; level and experience unchanged |
| `UserCrud.HashedPasswordAfter` | backend/app/crud/user.py:49-52 | a non-empty password in the payload yields its hash; an absent or empty one leaves the stored hash as it was |
| `UserCrud.UpdateUser` | backend/app/crud/user.py:41-61 | each profile field present in the update takes its value and absent ones keep theirs; a non-empty password is stored only as its hash; game fields, username, flags and id cannot change |
| `TaskCrud.IndexOf` | backend/app/crud/task.py:10-11 | the position found holds a row with the id and no earlier row has it; None exactly when no row has the id |
| `TaskCrud.GetTask` | backend/app/crud/task.py:10-11 | a found task is a row with the requested id; None exactly when no row has that id |
| `TaskCrud.GetTaskFindsRow` | backend/app/crud/task.py:10-11 | with unique ids, looking up a row's id returns that row |
| `TaskCrud.Filter` | backend/app/crud/task.py:20-22 | a row is in the result exactly when it is in the table and satisfies the condition; the result is no longer than the table |
| `TaskCrud.Page` | backend/app/crud/task.py:23 | OFFSET/LIMIT: the result has `min(limit, rows - skip)` rows (none past the end), and its i-th row is the table's `skip + i`-th |
| `TaskCrud.ListedFor` | backend/app/crud/task.py:20-22 | a task is listed exactly when the user owns it and, unless completed tasks are asked for, it is open |
| `TaskCrud.GetTasksByUser` | backend/app/crud/task.py:13-23 | at most `limit` rows, each owned by the user and, unless `include_completed`, not completed; with no offset and a large enough limit, every such task is listed |
| `TaskCrud.GetTasksByCategory` | backend/app/crud/task.py:25-37 | at most `limit` rows, each in the category and owned by the user; with no offset and a large enough limit, every such task is listed |
| `TaskCrud.GetOverdueTasks` | backend/app/crud/task.py:89-100 | exactly the user's open tasks with a due date before `now` |
| `TaskCrud.GetTasksDueToday` | backend/app/crud/task.py:102-117 | exactly the user's open tasks with a due date within the day's bounds, both ends included |
| `TaskCrud.GetSubtasks` | backend/app/crud/task.py:119-123 | exactly the tasks whose parent id is the argument |
| `TaskCrud.FilterKeepsIdOrder` | backend/app/crud/task.py:20-23 | filtering a table in id order gives a list in id order, with no row twice |
| `TaskCrud.TasksByUserInIdOrder` | backend/app/crud/task.py:13-23 | a user's task listing comes in id order, with no task twice |
| `TaskCrud.MaxId` | backend/app/models/task.py:24 | the largest id in the table (0 when empty): no row's id exceeds it, and a non-zero value is some row's id |
| `TaskCrud.NewId` | backend/app/models/task.py:24 | the id SQLite gives a new row: at least 1, above every id in the table, and either 1 or one more than an existing id |
| `TaskCrud.SameIdsSameNewId` | backend/app/models/task.py:24 | the new id depends only on the ids in the table: tables with the same ids row by row give the same new id |
| `TaskCrud.NewTask` | backend/app/crud/task.py:44-47 | the new row takes every payload field, is owned by `user_id`, has the requested id, is created at `now`, open, with no completion time and streak 0 |
| `TaskCrud.DefaultTaskRewards` | backend/app/models/task.py:37-39 | a task created with only a title pays 10 experience and 5 gold, has streak 0, is open and has no completion time |
| `TaskCrud.CreatedTaskIsListed` | backend/app/crud/task.py:44-48 | appending a new task under the table's new id keeps ids increasing; the id was not in use before; the task is found by its id and is listed among its owner's open tasks |
| `TaskCrud.CompletesTask` | backend/app/crud/task.py:61 | an update completes the task exactly when it sets `is_completed` to true and the stored task is open |
| `TaskCrud.ParentLookup` | backend/app/crud/task.py:65-66 | a parent found is a row of the table whose non-zero id is the task's parent id; none exactly when the parent id is absent, is 0, or matches no row |
| `TaskCrud.StreakAfter` | backend/app/crud/task.py:67-68 | with a completed parent the streak is exactly the parent's plus one; otherwise it is the task's own streak |
| `TaskCrud.MarkedCompleted` | backend/app/crud/task.py:62-68 | the completion time becomes `now`; with a completed parent the streak is the parent's plus one; no other field changes, and the streak changes only with a completed parent |
| `TaskCrud.ApplyFields` | backend/app/crud/task.py:74-75 | each field present in the update takes the requested value; every other field, including those the payload cannot name, is unchanged |
| `TaskCrud.UpdatedTask` | backend/app/crud/task.py:58-75 | the completed flag is the requested one or the old one; the completion time is `now` exactly on a completing update; id, owner, parent and rewards never change |
| `TaskCrud.ProgressAfter` | backend/app/crud/task.py:61-72 | the owner's total experience rises by `experience_reward` on a completing update and not at all otherwise; the level never drops; a non-completing update leaves the standing as it was |
| `TaskCrud.GoldAfter` | backend/app/crud/task.py:61-72 | the owner's gold rises by `gold_reward` on a completing update and is unchanged otherwise |
| `TaskCrud.UpdateCopiesRequestedFields` | backend/app/crud/task.py:58-75 | every field present in the update equals the requested value; every other field keeps its value, except completion time and streak on a completing update; id, owner, parent, category, creation time and rewards never change |
| `TaskCrud.CompletionPaysRewards` | backend/app/crud/task.py:61-72 | completing an open task marks it completed at `now`; the owner's gold rises by exactly `gold_reward` and total experience by exactly `experience_reward`; a settled owner stays settled when the reward is non-negative |
| `TaskCrud.CompletedTaskPaysNothing` | backend/app/crud/task.py:61 | an update to an already completed task pays nothing and keeps the completion time and streak |
| `TaskCrud.StreakFollowsCompletedParent` | backend/app/crud/task.py:65-68 | completing a task whose parent row exists, has a non-zero id and is completed sets the streak to the parent's plus one |
| `TaskCrud.StreakKeptWithoutCompletedParent` | backend/app/crud/task.py:65-68 | with no parent id, a parent id of 0, or a parent that is missing or open, the streak is unchanged |
| `TaskCrud.ReopenKeepsCompletionTrail` | backend/app/crud/task.py:61-75 | `is_completed = false` on a completed task reopens it; the completion time and streak stay, and no reward is taken back |
| `TaskCrud.ReopenThenCompletePaysAgain` | backend/app/crud/task.py:61-75 | after a reopen, completing the task again pays its gold and experience again |
| `TaskCrud.CompletionExample` | backend/app/crud/task.py:61-75 | a 10 XP / 5 gold task with no parent, completed for an owner on level 1 with 95 points and no gold: the owner ends on level 2 with 5 points and 5 gold; the task is completed at `now` with streak 0 |
| `TaskCrud.ReplaceKeepsOtherRows` | backend/app/crud/task.py:74-79 | writing back the updated row keeps ids increasing; the task's id finds the new row; every other lookup, the parent's included, is unchanged |
| `TaskCrud.RemoveAt` | backend/app/crud/task.py:83-85 | the table without the row at the position: one row shorter, rows before it in place and rows after it shifted by one |
| `TaskCrud.RemoveRowKeepsOthers` | backend/app/crud/task.py:83-85 | removing a row changes no lookup of another id |
| `TaskCrud.RemoveRowKeepsOrder` | backend/app/crud/task.py:83-85 | removing a row keeps ids increasing, and the removed id is no longer found |
| `TaskCrud.Unlinked` | backend/app/models/task.py:44-45 | a row after its parent is deleted: it no longer points at the deleted id, and it differs from before only by a parent link set to NULL when it was a subtask |
| `TaskCrud.Orphaned` | backend/app/models/task.py:44-45 | the table after the parent's deletion: same length, each row unlinked from the deleted id |
| `TaskCrud.OrphanedKeepsLookups` | backend/app/models/task.py:44-45 | unlinking keeps ids increasing and every lookup finds the same row, unlinked; no row is left among the deleted task's subtasks |
| `TaskCrud.AfterDelete` | backend/app/crud/task.py:82-87 | a found task's row goes and the table is one row shorter; a missing id leaves the table as it was |
| `TaskCrud.DeleteRemovesOnlyThatTask` | backend/app/crud/task.py:82-87 | after deleting an existing task, ids stay increasing, its id is not found, it has no subtasks left, and every other id finds its old row, unlinked from the deleted parent when it was a subtask |
| `TaskCrud.NewestIdIsReused` | backend/app/models/task.py:24 | creating a task and then deleting it makes the next task get the same id again |
| `TaskCrud.MarkCompleted` | backend/app/crud/task.py:62-68 | stamps `completed_at = now`; the streak is either unchanged or the looked-up parent's plus one, as `StreakAfter` decides; the parent is only read |
| `TaskCrud.CopyUpdateFields` | backend/app/crud/task.py:74-75 | copying field by field gives `ApplyFields`: present fields overwritten, absent ones kept |
| `TaskCrud.TaskTable.CreateTask` | backend/app/crud/task.py:39-51 | appends the payload as a new row owned by `user_id`, under `NewId` (one more than the largest id, 1 for an empty table), an id not in use; the new task is then found by its id |
| `TaskCrud.TaskTable.DeleteTask` | backend/app/crud/task.py:82-87 | returns the task that had the id, or None; the table becomes `AfterDelete`: no task has the id any more, its subtasks have their parent link set to NULL, every other id finds the row it found before (unlinked), and nothing changes when the id was absent |
| `TaskCrud.TaskTable.UpdateTask` | backend/app/crud/task.py:53-80 | the stored task becomes `UpdatedTask(old, update, parent, now)`; the owner's standing becomes `Award(old, experience_reward)` and gold rises by `gold_reward` only on the open-to-completed transition; every other row, the parent's included, is unchanged |

## Left out

- Database sessions (`add`, `commit`, `refresh`) are not modelled. `add_experience` and `add_gold` commit in the middle of `update_task`, so the source gives no atomicity to state.
- Concurrent requests are not modelled.
- Task tags are not modelled. Deleting a task also sets `task_id` to NULL on its `TaskTag` rows (models/task.py:48), the same way it unlinks subtasks. Tags are outside the levelling core.
- Foreign keys are not enforced (SQLite's default), so a `parent_id` may name a task that does not exist. The model allows this. Deleting an id that matches no task changes nothing, so such a link stays.
- SQLite's fallback for a table whose largest id is the 64-bit maximum (a random unused id) is not modelled. `NewId` is always one more than the largest id.
- Password hashing is the function parameter `hash` of `UpdateUser`. bcrypt itself is not modelled.
- The clock is not modelled. `datetime.utcnow()` becomes the parameter `now`. The day bounds of `get_tasks_due_today` are the parameters `dayStart` and `dayEnd`, so computing midnight and 23:59:59.999999 is left out.
- Database row order is modelled as id order. The queries have no ORDER BY. The model takes insertion order, which is id order.
- Explicit nulls in update payloads are not modelled for `title`, `priority`, `difficulty`, `is_completed` and the user's `first_name`, `last_name` and `email`. A payload can send `null` for these, and Pydantic then marks the field as set. What follows depends on the column:
  - `priority`, `difficulty` and `is_completed` are nullable columns (models/task.py:30-34), so the copy stores NULL.
  - `title` (models/task.py:25) and the user's `first_name`, `last_name` and `email` (models/user.py:10-13) are NOT NULL. The copy sets them to None and the final commit (task.py:78, user.py:59) fails with an integrity error, so the row is not updated.
  - On a completing task update, `add_experience` and `add_gold` have already committed by then (user.py:98, 109). Their commits also flush `completed_at` and the streak, so the owner is paid while the task stays open. Sending `is_completed = true` again pays a second time.
  - A null `password` is dropped: it is falsy, and `password` is not a column the copy loop visits.

  The model's update fields carry only non-null values, except `description` and `due_date`, which are nullable columns.
- Negative `skip` and `limit` are not modelled: both are `nat`. The database's handling of negative offsets is not part of this model.
- Integer width is not modelled. Python integers are unbounded, and so are Dafny's. The width of the database's INTEGER column is not modelled.
- `task.owner` is resolved by the caller. `UpdateTask` takes the owner object and requires that its id is the task's `owner_id`.
- The other user CRUD functions are not modelled: `get_user`, `get_user_by_email`, `get_user_by_username`, `get_users`, `delete_user` and `authenticate_user`. They are plain lookups and a delete, and `authenticate_user` is a password check. They are outside the levelling core. The user object that `create_user` builds is `Models.User.constructor`; only the session calls around it are left out.
- The HTTP endpoints, their ownership and 404 checks, and the inventory level gate are not modelled.
- TaskCrud.GetTasksByUser: the contract states the bound, the filter and completeness for an unpaged listing. Which rows a page in the middle holds is stated only through `Page` and `Filter`, on which the function is built.
- TaskCrud.GetTasksByCategory: same as `GetTasksByUser`.
