/** The task-side operations of the CRUD layer: lookups and list queries
    over the task table, creation, deletion, and the update that completes a
    task (stamping it, chaining its streak from a completed parent, and paying
    its rewards to the owner). The table is a sequence of rows in id order,
    the order in which the database hands them to offset/limit queries. */
module TaskCrud {
  import opened Wrappers
  import opened Progression
  import opened Models
  import UserCrud

  // ---------------------------------------------------------------------------
  // Lookup

  /** Row ids strictly increase along the table, so each id names one row. */
  predicate IdsIncreasing(rows: seq<Task>) {
    forall i, j :: 0 <= i < j < |rows| ==> rows[i].id < rows[j].id
  }

  /** Position of the first row with id `id`, if any. */
  function IndexOf(rows: seq<Task>, id: int): (r: Option<nat>)
    ensures r.Some? ==> r.value < |rows| && rows[r.value].id == id
    ensures r.Some? ==> forall k :: 0 <= k < r.value ==> rows[k].id != id
    ensures r.None? ==> forall k :: 0 <= k < |rows| ==> rows[k].id != id
  {
    if |rows| == 0 then None
    else if rows[0].id == id then Some(0)
    else
      match IndexOf(rows[1..], id)
      case None => None
      case Some(k) => Some(k + 1)
  }

  /** The task with id `id`, or None when the table has no such row. */
  function GetTask(rows: seq<Task>, id: int): (r: Option<Task>)
    ensures r.Some? ==> r.value in rows && r.value.id == id
    ensures r.None? <==> forall k :: 0 <= k < |rows| ==> rows[k].id != id
  {
    match IndexOf(rows, id)
    case None => None
    case Some(k) => Some(rows[k])
  }

  /** With unique ids, looking up a row's id finds exactly that row. */
  lemma GetTaskFindsRow(rows: seq<Task>, k: int)
    requires IdsIncreasing(rows) && 0 <= k < |rows|
    ensures GetTask(rows, rows[k].id) == Some(rows[k])
  {
    var i := IndexOf(rows, rows[k].id);
    assert i == Some(k);
  }

  // ---------------------------------------------------------------------------
  // Queries

  /** The rows `keep` accepts, in table order. */
  function Filter(rows: seq<Task>, keep: Task -> bool): (r: seq<Task>)
    ensures |r| <= |rows|
    ensures forall t :: t in r <==> t in rows && keep(t)
  {
    if |rows| == 0 then []
    else
      var rest := Filter(rows[1..], keep);
      assert forall t :: t in rows <==> t == rows[0] || t in rows[1..];
      if keep(rows[0]) then [rows[0]] + rest else rest
  }

  /** When no row is accepted, the result is empty. */
  lemma {:induction false} FilterRejectingAll(rows: seq<Task>, keep: Task -> bool)
    requires forall k :: 0 <= k < |rows| ==> !keep(rows[k])
    ensures Filter(rows, keep) == []
  {
    if |rows| > 0 {
      FilterRejectingAll(rows[1..], keep);
    }
  }

  function Min(a: int, b: int): int {
    if a <= b then a else b
  }

  /** OFFSET `skip` LIMIT `limit`: at most `limit` rows, starting after the
      first `skip`. */
  function Page(rows: seq<Task>, skip: nat, limit: nat): (r: seq<Task>)
    ensures |r| == if skip >= |rows| then 0 else Min(limit, |rows| - skip)
    ensures forall i :: 0 <= i < |r| ==> r[i] == rows[skip + i]
  {
    if skip >= |rows| then [] else rows[skip..skip + Min(limit, |rows| - skip)]
  }

  /** A task listed for its owner: open tasks only, unless completed ones are
      asked for too. */
  predicate ListedFor(t: Task, userId: int, includeCompleted: bool)
    ensures ListedFor(t, userId, includeCompleted) ==> t.ownerId == userId
    ensures t.ownerId == userId && !t.isCompleted ==> ListedFor(t, userId, includeCompleted)
    ensures t.isCompleted ==> (ListedFor(t, userId, includeCompleted) <==> t.ownerId == userId && includeCompleted)
  {
    t.ownerId == userId && (includeCompleted || !t.isCompleted)
  }

  /** The owner's tasks, open ones only unless `includeCompleted`, one page. */
  function GetTasksByUser(rows: seq<Task>, userId: int, skip: nat := 0, limit: nat := 100,
                          includeCompleted: bool := false): (r: seq<Task>)
    ensures |r| <= limit
    ensures forall t :: t in r ==> t in rows && ListedFor(t, userId, includeCompleted)
    // with no offset and a limit as large as the table, nothing is missing
    ensures skip == 0 && |rows| <= limit ==>
              forall t :: t in rows && ListedFor(t, userId, includeCompleted) ==> t in r
  {
    var matching := Filter(rows, (t: Task) => ListedFor(t, userId, includeCompleted));
    var r := Page(matching, skip, limit);
    assert forall t :: t in r ==> t in matching;
    assert skip == 0 && |rows| <= limit ==> r == matching;
    r
  }

  /** The owner's tasks in category `categoryId`, one page. */
  function GetTasksByCategory(rows: seq<Task>, categoryId: int, userId: int,
                              skip: nat := 0, limit: nat := 100): (r: seq<Task>)
    ensures |r| <= limit
    ensures forall t :: t in r ==> t in rows && t.categoryId == Some(categoryId) && t.ownerId == userId
    ensures skip == 0 && |rows| <= limit ==>
              forall t :: t in rows && t.categoryId == Some(categoryId) && t.ownerId == userId ==> t in r
  {
    var matching := Filter(rows, (t: Task) => t.categoryId == Some(categoryId) && t.ownerId == userId);
    var r := Page(matching, skip, limit);
    assert forall t :: t in r ==> t in matching;
    assert skip == 0 && |rows| <= limit ==> r == matching;
    r
  }

  /** The owner's open tasks whose due date has passed at `now`. A task with
      no due date is never overdue. */
  function GetOverdueTasks(rows: seq<Task>, userId: int, now: int): (r: seq<Task>)
    ensures forall t :: t in r <==>
              t in rows && t.ownerId == userId && !t.isCompleted
              && t.dueDate.Some? && t.dueDate.value < now
  {
    Filter(rows, (t: Task) => t.ownerId == userId && t.dueDate.Some? && t.dueDate.value < now && !t.isCompleted)
  }

  /** The owner's open tasks due within the day [dayStart, dayEnd], both ends
      included. */
  function GetTasksDueToday(rows: seq<Task>, userId: int, dayStart: int, dayEnd: int): (r: seq<Task>)
    ensures forall t :: t in r <==>
              t in rows && t.ownerId == userId && !t.isCompleted
              && t.dueDate.Some? && dayStart <= t.dueDate.value <= dayEnd
  {
    Filter(rows, (t: Task) => t.ownerId == userId && t.dueDate.Some? && dayStart <= t.dueDate.value
                      && t.dueDate.value <= dayEnd && !t.isCompleted)
  }

  /** The tasks whose parent is `parentId`, whoever owns them. */
  function GetSubtasks(rows: seq<Task>, parentId: int): (r: seq<Task>)
    ensures forall t :: t in r <==> t in rows && t.parentId == Some(parentId)
  {
    Filter(rows, (t: Task) => t.parentId == Some(parentId))
  }

  /** Filtering keeps the table's id order, so a query never lists a row twice. */
  lemma {:induction false} FilterKeepsIdOrder(rows: seq<Task>, keep: Task -> bool)
    requires IdsIncreasing(rows)
    ensures IdsIncreasing(Filter(rows, keep))
  {
    if |rows| > 0 {
      FilterKeepsIdOrder(rows[1..], keep);
      var rest := Filter(rows[1..], keep);
      if keep(rows[0]) {
        var r := [rows[0]] + rest;
        forall i, j | 0 <= i < j < |r| ensures r[i].id < r[j].id {
          if i == 0 {
            assert r[j] in rows[1..];
          } else {
            assert r[i] == rest[i - 1] && r[j] == rest[j - 1];
          }
        }
      }
    }
  }

  /** Every listing of a user's tasks comes in id order, without repeats. */
  lemma TasksByUserInIdOrder(rows: seq<Task>, userId: int, skip: nat, limit: nat,
                             includeCompleted: bool)
    requires IdsIncreasing(rows)
    ensures IdsIncreasing(GetTasksByUser(rows, userId, skip, limit, includeCompleted))
  {
    FilterKeepsIdOrder(rows, (t: Task) => ListedFor(t, userId, includeCompleted));
  }

  // ---------------------------------------------------------------------------
  // Creation

  /** The largest id in the table, or 0 when the table is empty. */
  function MaxId(rows: seq<Task>): (r: int)
    ensures 0 <= r
    ensures forall k :: 0 <= k < |rows| ==> rows[k].id <= r
    ensures r == 0 || exists k :: 0 <= k < |rows| && rows[k].id == r
  {
    if |rows| == 0 then 0
    else
      var rest := MaxId(rows[1..]);
      assert forall k :: 1 <= k < |rows| ==> rows[k] == rows[1..][k - 1];
      if rows[0].id > rest then rows[0].id else rest
  }

  /** The id the database gives a new row: one more than the largest id in
      the table, 1 for an empty table. No id is remembered once its row is
      gone, so deleting the newest task frees its id for the next one. */
  function NewId(rows: seq<Task>): (r: int)
    ensures 1 <= r
    ensures forall k :: 0 <= k < |rows| ==> rows[k].id < r
    ensures r == 1 || exists k :: 0 <= k < |rows| && rows[k].id == r - 1
  {
    MaxId(rows) + 1
  }

  /** Tables whose rows carry the same ids, row by row, give new rows the
      same id. */
  lemma SameIdsSameNewId(a: seq<Task>, b: seq<Task>)
    requires |a| == |b| && forall k :: 0 <= k < |a| ==> a[k].id == b[k].id
    ensures NewId(a) == NewId(b)
  {
    if MaxId(a) != 0 {
      var k :| 0 <= k < |a| && a[k].id == MaxId(a);
      assert b[k].id <= MaxId(b);
    }
    if MaxId(b) != 0 {
      var k :| 0 <= k < |b| && b[k].id == MaxId(b);
      assert a[k].id <= MaxId(a);
    }
  }

  /** The row a creation payload becomes: the payload's fields, owned by
      `userId`, created at `now`, open, never completed, with no streak. */
  function NewTask(id: int, taskIn: TaskCreate, userId: int, now: int): (r: Task)
    ensures r.id == id && r.ownerId == userId && r.createdAt == now
    ensures !r.isCompleted && r.completedAt.None? && r.streakCount == DefaultStreakCount
    ensures r.title == taskIn.title && r.description == taskIn.description && r.dueDate == taskIn.dueDate
    ensures r.priority == taskIn.priority && r.difficulty == taskIn.difficulty
    ensures r.experienceReward == taskIn.experienceReward && r.goldReward == taskIn.goldReward
    ensures r.parentId == taskIn.parentId && r.categoryId == taskIn.categoryId
  {
    Task(id, taskIn.title, taskIn.description, now, taskIn.dueDate, None, false,
         taskIn.priority, taskIn.difficulty, taskIn.experienceReward, taskIn.goldReward,
         DefaultStreakCount, userId, taskIn.parentId, taskIn.categoryId)
  }

  /** A task created with only a title pays 10 experience and 5 gold and has
      no streak yet. */
  lemma DefaultTaskRewards(id: int, title: string, userId: int, now: int)
    ensures var t := NewTask(id, TaskCreateWithDefaults(title), userId, now);
            t.experienceReward == 10 && t.goldReward == 5 && t.streakCount == 0
            && t.ownerId == userId && !t.isCompleted && t.completedAt.None?
  {
  }

  /** Appending a new row under the table's new id keeps the table's ids
      increasing; the new task is found by its id and is listed among its
      owner's open tasks. */
  lemma CreatedTaskIsListed(rows: seq<Task>, taskIn: TaskCreate, userId: int, now: int)
    requires IdsIncreasing(rows)
    ensures var t := NewTask(NewId(rows), taskIn, userId, now);
            && IdsIncreasing(rows + [t])
            && GetTask(rows, t.id).None?
            && GetTask(rows + [t], t.id) == Some(t)
            && t in GetTasksByUser(rows + [t], userId, 0, |rows| + 1, false)
  {
    var t := NewTask(NewId(rows), taskIn, userId, now);
    var rows' := rows + [t];
    assert IdsIncreasing(rows') by {
      forall i, j | 0 <= i < j < |rows'| ensures rows'[i].id < rows'[j].id {
        if j == |rows| {
          assert rows'[i] == rows[i];
        } else {
          assert rows'[i] == rows[i] && rows'[j] == rows[j];
        }
      }
    }
    GetTaskFindsRow(rows', |rows|);
    assert t in rows';
  }

  // ---------------------------------------------------------------------------
  // Update

  /** The update completes the task: it asks for is_completed = true and the
      stored task is not completed yet. Only then are rewards paid. */
  predicate CompletesTask(task: Task, update: TaskUpdate)
    ensures CompletesTask(task, update) ==> update.isCompleted.Set? && update.isCompleted.value
    ensures task.isCompleted || update.isCompleted.Unset? ==> !CompletesTask(task, update)
  {
    update.isCompleted == Set(true) && !task.isCompleted
  }

  /** The parent row a completing task looks up: none when the task has no
      parent id or its parent id is 0 (a falsy id), else whatever the table
      holds under that id. */
  function ParentLookup(rows: seq<Task>, task: Task): (r: Option<Task>)
    ensures r.Some? ==> r.value in rows && r.value.id != 0 && task.parentId == Some(r.value.id)
    ensures r.None? <==> task.parentId.None? || task.parentId == Some(0)
                         || forall k :: 0 <= k < |rows| ==> rows[k].id != task.parentId.value
  {
    if task.parentId.Some? && task.parentId.value != 0 then GetTask(rows, task.parentId.value) else None
  }

  /** The streak a completing task gets: one more than a completed parent's,
      else the streak it already had. */
  function StreakAfter(task: Task, parent: Option<Task>): (r: int)
    ensures parent.Some? && parent.value.isCompleted ==> r == parent.value.streakCount + 1
    ensures r == task.streakCount || (parent.Some? && parent.value.isCompleted)
  {
    if parent.Some? && parent.value.isCompleted then parent.value.streakCount + 1 else task.streakCount
  }

  /** The task with every field present in the update copied over it. */
  function ApplyFields(task: Task, update: TaskUpdate): (r: Task)
    // a field present in the update takes the requested value
    ensures update.title.Set? ==> r.title == update.title.value
    ensures update.description.Set? ==> r.description == update.description.value
    ensures update.dueDate.Set? ==> r.dueDate == update.dueDate.value
    ensures update.priority.Set? ==> r.priority == update.priority.value
    ensures update.difficulty.Set? ==> r.difficulty == update.difficulty.value
    ensures update.isCompleted.Set? ==> r.isCompleted == update.isCompleted.value
    // everything else stays, fields the payload cannot name included
    ensures r.(title := task.title, description := task.description, dueDate := task.dueDate,
               priority := task.priority, difficulty := task.difficulty,
               isCompleted := task.isCompleted) == task
  {
    task.(title := update.title.Over(task.title),
          description := update.description.Over(task.description),
          dueDate := update.dueDate.Over(task.dueDate),
          priority := update.priority.Over(task.priority),
          difficulty := update.difficulty.Over(task.difficulty),
          isCompleted := update.isCompleted.Over(task.isCompleted))
  }

  /** The completion side effects on the task itself: the completion time
      and the streak. */
  function MarkedCompleted(task: Task, parent: Option<Task>, now: int): (r: Task)
    ensures r.completedAt == Some(now)
    ensures parent.Some? && parent.value.isCompleted ==> r.streakCount == parent.value.streakCount + 1
    ensures r.(completedAt := task.completedAt) == task
            || (parent.Some? && parent.value.isCompleted
                && r.(completedAt := task.completedAt, streakCount := task.streakCount) == task)
  {
    task.(completedAt := Some(now), streakCount := StreakAfter(task, parent))
  }

  /** The task after an update: a completing update first stamps the
      completion time and sets the streak; then every field present in the
      update is copied over. */
  function UpdatedTask(task: Task, update: TaskUpdate, parent: Option<Task>, now: int): (r: Task)
    ensures r.isCompleted == update.isCompleted.Over(task.isCompleted)
    ensures r.completedAt == if CompletesTask(task, update) then Some(now) else task.completedAt
    ensures r.id == task.id && r.ownerId == task.ownerId && r.parentId == task.parentId
    ensures r.experienceReward == task.experienceReward && r.goldReward == task.goldReward
  {
    var marked := if CompletesTask(task, update) then MarkedCompleted(task, parent, now) else task;
    ApplyFields(marked, update)
  }

  /** The owner's level and experience after the update. */
  function ProgressAfter(task: Task, update: TaskUpdate, s: Standing): (r: Standing)
    ensures TotalXp(r) == TotalXp(s) + if CompletesTask(task, update) then task.experienceReward else 0
    ensures r.level >= s.level
    ensures !CompletesTask(task, update) ==> r == s
  {
    if CompletesTask(task, update) then Award(s, task.experienceReward) else s
  }

  /** The owner's gold after the update. */
  function GoldAfter(task: Task, update: TaskUpdate, gold: int): (r: int)
    ensures r == gold + if CompletesTask(task, update) then task.goldReward else 0
  {
    if CompletesTask(task, update) then gold + task.goldReward else gold
  }

  /** Every field present in the update takes the requested value, every
      other field keeps its value, except that a completing update also
      stamps the completion time and may change the streak. Identity, owner,
      parent, category, creation time and rewards are never touched. */
  lemma UpdateCopiesRequestedFields(task: Task, update: TaskUpdate, parent: Option<Task>, now: int)
    ensures var r := UpdatedTask(task, update, parent, now);
            && r.title == update.title.Over(task.title)
            && r.description == update.description.Over(task.description)
            && r.dueDate == update.dueDate.Over(task.dueDate)
            && r.priority == update.priority.Over(task.priority)
            && r.difficulty == update.difficulty.Over(task.difficulty)
            && r.isCompleted == update.isCompleted.Over(task.isCompleted)
            && r.completedAt == (if CompletesTask(task, update) then Some(now) else task.completedAt)
            && r.streakCount == (if CompletesTask(task, update) then StreakAfter(task, parent) else task.streakCount)
            && r.id == task.id && r.ownerId == task.ownerId && r.parentId == task.parentId
            && r.categoryId == task.categoryId && r.createdAt == task.createdAt
            && r.experienceReward == task.experienceReward && r.goldReward == task.goldReward
  {
  }

  /** Completing an open task marks it completed at `now` and pays its owner
      exactly the task's gold and experience rewards. */
  lemma CompletionPaysRewards(task: Task, update: TaskUpdate, parent: Option<Task>, now: int,
                              s: Standing, gold: int)
    requires CompletesTask(task, update)
    ensures UpdatedTask(task, update, parent, now).isCompleted
    ensures UpdatedTask(task, update, parent, now).completedAt == Some(now)
    ensures GoldAfter(task, update, gold) == gold + task.goldReward
    ensures TotalXp(ProgressAfter(task, update, s)) == TotalXp(s) + task.experienceReward
    ensures Settled(s) && 0 <= task.experienceReward ==> Settled(ProgressAfter(task, update, s))
  {
    if Settled(s) && 0 <= task.experienceReward {
      AwardKeepsSettled(s, task.experienceReward);
    }
  }

  /** Sending is_completed = true again for a task that is already completed
      pays nothing and leaves the completion time and streak as they were. */
  lemma CompletedTaskPaysNothing(task: Task, update: TaskUpdate, parent: Option<Task>, now: int,
                                 s: Standing, gold: int)
    requires task.isCompleted
    ensures ProgressAfter(task, update, s) == s && GoldAfter(task, update, gold) == gold
    ensures UpdatedTask(task, update, parent, now).completedAt == task.completedAt
    ensures UpdatedTask(task, update, parent, now).streakCount == task.streakCount
  {
  }

  /** Completing a task whose parent row is completed sets its streak to one
      more than the parent's. */
  lemma StreakFollowsCompletedParent(rows: seq<Task>, task: Task, update: TaskUpdate, now: int, k: int)
    requires IdsIncreasing(rows) && 0 <= k < |rows|
    requires task.parentId == Some(rows[k].id) && rows[k].id != 0 && rows[k].isCompleted
    requires CompletesTask(task, update)
    ensures UpdatedTask(task, update, ParentLookup(rows, task), now).streakCount == rows[k].streakCount + 1
  {
    GetTaskFindsRow(rows, k);
  }

  /** Completing a task without a parent, with a parent id of 0, or whose
      parent row is missing or open leaves its streak unchanged. */
  lemma StreakKeptWithoutCompletedParent(rows: seq<Task>, task: Task, update: TaskUpdate, now: int)
    requires task.parentId.None? || task.parentId == Some(0)
             || forall k :: 0 <= k < |rows| && rows[k].id == task.parentId.value ==> !rows[k].isCompleted
    ensures UpdatedTask(task, update, ParentLookup(rows, task), now).streakCount == task.streakCount
  {
    var parent := ParentLookup(rows, task);
    if parent.Some? {
      var k := IndexOf(rows, task.parentId.value).value;
      assert parent.value == rows[k];
    }
  }

  /** Sending is_completed = false for a completed task reopens it, but keeps
      its completion time and streak, and takes no reward back. */
  lemma ReopenKeepsCompletionTrail(task: Task, update: TaskUpdate, parent: Option<Task>, now: int,
                                   s: Standing, gold: int)
    requires task.isCompleted && update.isCompleted == Set(false)
    ensures !UpdatedTask(task, update, parent, now).isCompleted
    ensures UpdatedTask(task, update, parent, now).completedAt == task.completedAt
    ensures UpdatedTask(task, update, parent, now).streakCount == task.streakCount
    ensures ProgressAfter(task, update, s) == s && GoldAfter(task, update, gold) == gold
  {
  }

  /** Completion is not one-way: after reopening, completing the same task
      again pays its rewards a second time. */
  lemma ReopenThenCompletePaysAgain(task: Task, reopen: TaskUpdate, complete: TaskUpdate,
                                    parent: Option<Task>, now: int, s: Standing, gold: int)
    requires task.isCompleted
    requires reopen.isCompleted == Set(false) && complete.isCompleted == Set(true)
    ensures var reopened := UpdatedTask(task, reopen, parent, now);
            && CompletesTask(reopened, complete)
            && GoldAfter(reopened, complete, gold) == gold + task.goldReward
            && ProgressAfter(reopened, complete, s) == Award(s, task.experienceReward)
  {
  }

  /** A task paying 10 experience and 5 gold, with no parent, completed for
      an owner on level 1 with 95 points and no gold: the owner ends on level
      2 with 5 points and 5 gold; the task is completed at `now`, streak 0. */
  lemma CompletionExample(task: Task, update: TaskUpdate, rows: seq<Task>, now: int)
    requires !task.isCompleted && task.parentId.None? && task.streakCount == 0
    requires task.experienceReward == 10 && task.goldReward == 5
    requires update.isCompleted == Set(true)
    ensures var r := UpdatedTask(task, update, ParentLookup(rows, task), now);
            r.isCompleted && r.completedAt == Some(now) && r.streakCount == 0
    ensures ProgressAfter(task, update, Standing(1, 95)) == Standing(2, 5)
    ensures GoldAfter(task, update, 0) == 5
  {
    assert CompletesTask(task, update);
    assert ParentLookup(rows, task).None?;
    assert Award(Standing(1, 95), 10) == Standing(2, 5) by {
      assert Settle(Standing(2, 5)) == Standing(2, 5);
    }
  }

  /** Replacing a row by one with the same id keeps the ids increasing,
      makes the lookup of that id find the new row and changes no other
      lookup: the parent and every other task are left as they were. */
  lemma ReplaceKeepsOtherRows(rows: seq<Task>, i: int, t: Task)
    requires IdsIncreasing(rows) && 0 <= i < |rows| && t.id == rows[i].id
    ensures IdsIncreasing(rows[i := t])
    ensures GetTask(rows[i := t], t.id) == Some(t)
    ensures forall id :: id != t.id ==> GetTask(rows[i := t], id) == GetTask(rows, id)
  {
    var rows' := rows[i := t];
    assert IdsIncreasing(rows') by {
      forall a, b | 0 <= a < b < |rows'| ensures rows'[a].id < rows'[b].id {
        assert rows'[a].id == rows[a].id && rows'[b].id == rows[b].id;
      }
    }
    GetTaskFindsRow(rows', i);
    forall id | id != t.id ensures GetTask(rows', id) == GetTask(rows, id) {
      var found := GetTask(rows, id);
      if found.Some? {
        var k := IndexOf(rows, id).value;
        assert k != i;
        GetTaskFindsRow(rows, k);
        assert rows'[k] == rows[k];
        GetTaskFindsRow(rows', k);
      } else {
        assert forall k :: 0 <= k < |rows'| ==> rows'[k].id != id by {
          forall k | 0 <= k < |rows'| ensures rows'[k].id != id {
            assert rows'[k].id == rows[k].id;
          }
        }
      }
    }
  }

  /** The table without its row at `i`. */
  function RemoveAt(rows: seq<Task>, i: int): (r: seq<Task>)
    requires 0 <= i < |rows|
    ensures |r| == |rows| - 1
    ensures forall a :: 0 <= a < |r| ==> r[a] == if a < i then rows[a] else rows[a + 1]
  {
    rows[..i] + rows[i + 1..]
  }

  /** Removing the row at `i` changes no lookup of another id. */
  lemma RemoveRowKeepsOthers(rows: seq<Task>, i: int)
    requires IdsIncreasing(rows) && 0 <= i < |rows|
    ensures forall id :: id != rows[i].id ==> GetTask(RemoveAt(rows, i), id) == GetTask(rows, id)
  {
    var rows' := RemoveAt(rows, i);
    RemoveRowKeepsOrder(rows, i);
    forall id | id != rows[i].id ensures GetTask(rows', id) == GetTask(rows, id) {
      if GetTask(rows, id).Some? {
        var k := IndexOf(rows, id).value;
        GetTaskFindsRow(rows, k);
        var k' := if k < i then k else k - 1;
        assert rows'[k'] == rows[k];
        GetTaskFindsRow(rows', k');
      } else {
        forall a | 0 <= a < |rows'| ensures rows'[a].id != id {
          assert rows'[a] == rows[if a < i then a else a + 1];
        }
      }
    }
  }

  /** Removing a row keeps the ids increasing, and the removed id is no
      longer found. */
  lemma RemoveRowKeepsOrder(rows: seq<Task>, i: int)
    requires IdsIncreasing(rows) && 0 <= i < |rows|
    ensures IdsIncreasing(RemoveAt(rows, i))
    ensures GetTask(RemoveAt(rows, i), rows[i].id).None?
  {
    var rows' := RemoveAt(rows, i);
    forall a, b | 0 <= a < b < |rows'| ensures rows'[a].id < rows'[b].id {
      var a' := if a < i then a else a + 1;
      var b' := if b < i then b else b + 1;
      assert rows'[a] == rows[a'] && rows'[b] == rows[b'];
    }
    forall k | 0 <= k < |rows'| ensures rows'[k].id != rows[i].id {
      var k' := if k < i then k else k + 1;
      assert rows'[k] == rows[k'];
    }
  }

  /** A row once its parent, the task with id `id`, is deleted: a subtask
      of it loses its parent link, every other row is left alone. */
  function Unlinked(t: Task, id: int): (r: Task)
    ensures r.parentId != Some(id)
    ensures r == t || (t.parentId == Some(id) && r == t.(parentId := None))
  {
    if t.parentId == Some(id) then t.(parentId := None) else t
  }

  /** The table once the task with id `id` is deleted from it: the database
      sets the parent link of each of its subtasks to NULL, so they become
      top-level tasks; nothing else in their rows changes. */
  function Orphaned(rows: seq<Task>, id: int): (r: seq<Task>)
    ensures |r| == |rows|
    ensures forall k :: 0 <= k < |r| ==> r[k] == Unlinked(rows[k], id)
  {
    seq(|rows|, k requires 0 <= k < |rows| => Unlinked(rows[k], id))
  }

  /** Rows carrying the same ids, row by row, are found at the same place. */
  lemma {:induction false} SameIdsSameIndex(a: seq<Task>, b: seq<Task>, id: int)
    requires |a| == |b| && forall k :: 0 <= k < |a| ==> a[k].id == b[k].id
    ensures IndexOf(a, id) == IndexOf(b, id)
  {
    if |a| > 0 && a[0].id != id {
      SameIdsSameIndex(a[1..], b[1..], id);
    }
  }

  /** Unlinking the subtasks keeps the ids in place: every lookup finds the
      same row as before, unlinked, and no row is left pointing at `id`. */
  lemma OrphanedKeepsLookups(rows: seq<Task>, id: int)
    requires IdsIncreasing(rows)
    ensures IdsIncreasing(Orphaned(rows, id))
    ensures forall x :: GetTask(Orphaned(rows, id), x).None? == GetTask(rows, x).None?
    ensures forall x :: GetTask(rows, x).Some? ==>
              GetTask(Orphaned(rows, id), x) == Some(Unlinked(GetTask(rows, x).value, id))
    ensures GetSubtasks(Orphaned(rows, id), id) == []
  {
    var rows' := Orphaned(rows, id);
    forall x ensures IndexOf(rows', x) == IndexOf(rows, x) {
      SameIdsSameIndex(rows', rows, x);
    }
    FilterRejectingAll(rows', (t: Task) => t.parentId == Some(id));
  }

  /** The table after deleting the task with id `id`: its row is removed and
      its subtasks are unlinked; with no such task the table is unchanged. */
  function AfterDelete(rows: seq<Task>, id: int): (r: seq<Task>)
    ensures GetTask(rows, id).Some? ==> |r| == |rows| - 1
    ensures GetTask(rows, id).None? ==> r == rows
  {
    match IndexOf(rows, id)
    case None => rows
    case Some(k) => Orphaned(RemoveAt(rows, k), id)
  }

  /** Deleting a task removes exactly that task: ids stay increasing, the id
      is no longer found, none of the remaining tasks is its subtask, and
      every other id finds the row it found before, unlinked from the
      deleted parent when it was a subtask of it. */
  lemma DeleteRemovesOnlyThatTask(rows: seq<Task>, id: int)
    requires IdsIncreasing(rows) && GetTask(rows, id).Some?
    ensures IdsIncreasing(AfterDelete(rows, id))
    ensures GetTask(AfterDelete(rows, id), id).None?
    ensures GetSubtasks(AfterDelete(rows, id), id) == []
    ensures forall x :: x != id ==> GetTask(AfterDelete(rows, id), x).None? == GetTask(rows, x).None?
    ensures forall x :: x != id && GetTask(rows, x).Some? ==>
              GetTask(AfterDelete(rows, id), x) == Some(Unlinked(GetTask(rows, x).value, id))
  {
    var k := IndexOf(rows, id).value;
    RemoveRowKeepsOrder(rows, k);
    RemoveRowKeepsOthers(rows, k);
    OrphanedKeepsLookups(RemoveAt(rows, k), id);
  }

  /** The id of the newest task is handed out again once that task is
      deleted: the next task created gets the same id. */
  lemma NewestIdIsReused(rows: seq<Task>, taskIn: TaskCreate, userId: int, now: int)
    requires IdsIncreasing(rows)
    ensures var t := NewTask(NewId(rows), taskIn, userId, now);
            NewId(AfterDelete(rows + [t], t.id)) == t.id
  {
    var t := NewTask(NewId(rows), taskIn, userId, now);
    var rows' := rows + [t];
    CreatedTaskIsListed(rows, taskIn, userId, now);
    GetTaskFindsRow(rows', |rows|);
    assert RemoveAt(rows', |rows|) == rows;
    SameIdsSameNewId(Orphaned(rows, t.id), rows);
  }

  /** Stamp a task being completed at `now` and chain its streak: when it
      has a (truthy) parent id and the table holds that parent completed, the
      streak becomes the parent's plus one. The parent is only read. This is
      the statement-by-statement form of `MarkedCompleted`, the function it
      is proved against and the one the lemmas above speak about. */
  method MarkCompleted(rows: seq<Task>, task: Task, now: int) returns (r: Task)
    ensures r == MarkedCompleted(task, ParentLookup(rows, task), now)
    ensures r.completedAt == Some(now)
    ensures r.streakCount == task.streakCount || r.streakCount == ParentLookup(rows, task).value.streakCount + 1
  {
    r := task.(completedAt := Some(now));
    if r.parentId.Some? && r.parentId.value != 0 {
      var parent := GetTask(rows, r.parentId.value);
      if parent.Some? && parent.value.isCompleted {
        r := r.(streakCount := parent.value.streakCount + 1);
      }
    }
  }

  /** Copy every field present in the update onto the task, one field at a
      time; fields left out of the update keep their values. This is the
      statement-by-statement form of `ApplyFields`, the function it is proved
      against. */
  method CopyUpdateFields(task: Task, update: TaskUpdate) returns (r: Task)
    ensures r == ApplyFields(task, update)
  {
    r := task;
    if update.title.Set? {
      r := r.(title := update.title.value);
    }
    if update.description.Set? {
      r := r.(description := update.description.value);
    }
    if update.dueDate.Set? {
      r := r.(dueDate := update.dueDate.value);
    }
    if update.priority.Set? {
      r := r.(priority := update.priority.value);
    }
    if update.difficulty.Set? {
      r := r.(difficulty := update.difficulty.value);
    }
    if update.isCompleted.Set? {
      r := r.(isCompleted := update.isCompleted.value);
    }
  }

  // ---------------------------------------------------------------------------
  // The table

  /** The task table: its rows in id order. */
  class TaskTable {
    var rows: seq<Task>

    /** Ids increase along the table and start at 1. */
    ghost predicate Valid()
      reads this
    {
      IdsIncreasing(rows) && (|rows| > 0 ==> 1 <= rows[0].id)
    }

    /** An empty table. */
    constructor ()
      ensures Valid() && rows == []
    {
      rows := [];
    }

    /** Store a new task owned by `userId`, under the database's new id:
        one more than the largest id in the table. */
    method CreateTask(taskIn: TaskCreate, userId: int, now: int) returns (task: Task)
      requires Valid()
      modifies this
      ensures Valid()
      ensures task == NewTask(NewId(old(rows)), taskIn, userId, now)
      ensures task.ownerId == userId && GetTask(old(rows), task.id).None?
      ensures rows == old(rows) + [task]
      ensures GetTask(rows, task.id) == Some(task)
    {
      task := NewTask(NewId(rows), taskIn, userId, now);
      CreatedTaskIsListed(rows, taskIn, userId, now);
      rows := rows + [task];
    }

    /** Remove the task with id `taskId` and return it, unlinking its
        subtasks; or return None and change nothing when there is no such
        task. */
    method DeleteTask(taskId: int) returns (deleted: Option<Task>)
      requires Valid()
      modifies this`rows
      ensures Valid()
      ensures deleted == GetTask(old(rows), taskId)
      ensures rows == AfterDelete(old(rows), taskId)
      ensures GetTask(rows, taskId).None?
      ensures deleted.Some? ==> GetSubtasks(rows, taskId) == []
      ensures deleted.Some? ==> forall x :: x != taskId && GetTask(old(rows), x).Some? ==>
                GetTask(rows, x) == Some(Unlinked(GetTask(old(rows), x).value, taskId))
      ensures forall x :: x != taskId ==> GetTask(rows, x).None? == GetTask(old(rows), x).None?
    {
      var k := IndexOf(rows, taskId);
      if k.Some? {
        deleted := Some(rows[k.value]);
        DeleteRemovesOnlyThatTask(rows, taskId);
        rows := AfterDelete(rows, taskId);
      } else {
        deleted := None;
      }
    }

    /** Apply a partial update to the task with id `taskId`, whose owner is
        `owner`. When the update asks for is_completed = true and the task is
        open: stamp the completion time, take the streak of a completed parent
        plus one, and pay the owner the task's experience and gold. Then copy
        every field present in the update onto the task. */
    method UpdateTask(taskId: int, update: TaskUpdate, owner: User, now: int) returns (task: Task)
      requires Valid()
      requires GetTask(rows, taskId).Some?
      requires owner.id == GetTask(rows, taskId).value.ownerId
      modifies this`rows, owner`experiencePoints, owner`level, owner`gold
      ensures Valid()
      ensures var before := GetTask(old(rows), taskId).value;
              && task == UpdatedTask(before, update, ParentLookup(old(rows), before), now)
              && owner.Progress() == ProgressAfter(before, update, old(owner.Progress()))
              && owner.gold == GoldAfter(before, update, old(owner.gold))
      ensures rows == old(rows)[IndexOf(old(rows), taskId).value := task]
      ensures GetTask(rows, taskId) == Some(task)
      ensures forall id :: id != taskId ==> GetTask(rows, id) == GetTask(old(rows), id)
    {
      var i := IndexOf(rows, taskId).value;
      task := rows[i];
      if update.isCompleted == Set(true) && !task.isCompleted {
        task := MarkCompleted(rows, task, now);
        UserCrud.AddExperience(owner, task.experienceReward);
        UserCrud.AddGold(owner, task.goldReward);
      }
      task := CopyUpdateFields(task, update);
      ReplaceKeepsOtherRows(rows, i, task);
      rows := rows[i := task];
    }
  }
}
