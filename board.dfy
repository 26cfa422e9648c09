/**
 * The pure logic of the task board (components/TaskList.tsx): looking tasks
 * up by id, dependency blocking, the priority filter, toggling one
 * dependency, the candidates offered for dependencies, and the
 * remove-then-insert move behind drag-reordering.
 */
module Board {
  import opened Types

  /** `b` keeps some of the elements of `a`, in their order. */
  predicate SubsequenceOf<T(==)>(b: seq<T>, a: seq<T>)
  {
    if b == [] then true
    else if a == [] then false
    else if b[0] == a[0] then SubsequenceOf(b[1..], a[1..])
    else SubsequenceOf(b, a[1..])
  }

  /** No two tasks of the list share an id. */
  predicate UniqueIds(tasks: seq<Task>)
  {
    forall i, j :: 0 <= i < |tasks| && 0 <= j < |tasks| && tasks[i].id == tasks[j].id ==> i == j
  }

  /** `tasks.find(t => t.id === id)`: the first task with that id, if any. */
  function FindTask(tasks: seq<Task>, id: string): (r: Option<Task>)
    ensures r.None? <==> forall j :: 0 <= j < |tasks| ==> tasks[j].id != id
    ensures r.Some? ==> exists k :: (0 <= k < |tasks| && r.value == tasks[k] && r.value.id == id
                                     && forall j :: 0 <= j < k ==> tasks[j].id != id)
  {
    var k := FirstIndex(tasks, TaskId, id);
    if k < |tasks| then Some(tasks[k]) else None
  }

  /**
   * A dependency id blocks when the first task it names (the one `find`
   * returns) is not Completed; an id no task carries does not block.
   */
  predicate BlocksOn(tasks: seq<Task>, depId: string): (b: bool)
    ensures b <==> exists k :: (0 <= k < |tasks| && tasks[k].id == depId && tasks[k].status != Completed
                                && forall j :: 0 <= j < k ==> tasks[j].id != depId)
  {
    match FindTask(tasks, depId)
    case Some(t) => t.status != Completed
    case None => false
  }

  /**
   * `isTaskBlocked`: some dependency id is blocking. A blocked task always
   * has a dependency that names a listed task which is not Completed.
   */
  predicate IsBlocked(task: Task, tasks: seq<Task>): (b: bool)
    ensures b ==> exists i, j :: (0 <= i < |task.dependencies| && 0 <= j < |tasks|
                                 && tasks[j].id == task.dependencies[i] && tasks[j].status != Completed)
  {
    exists i :: 0 <= i < |task.dependencies| && BlocksOn(tasks, task.dependencies[i])
  }

  /**
   * A task that waits on one task only, the first with its id, is blocked
   * exactly while that task is not Completed.
   */
  lemma SingleDependency(task: Task, tasks: seq<Task>, f: nat)
    requires f < |tasks| && task.dependencies == [tasks[f].id]
    requires FirstIndex(tasks, TaskId, tasks[f].id) == f
    ensures IsBlocked(task, tasks) <==> tasks[f].status != Completed
  {
    assert FindTask(tasks, tasks[f].id) == Some(tasks[f]);
    if tasks[f].status != Completed {
      assert BlocksOn(tasks, task.dependencies[0]);
    }
  }

  /**
   * With unique ids, a task is blocked exactly when one of its dependencies
   * names a task of the list that is not Completed.
   */
  lemma BlockedIff(task: Task, tasks: seq<Task>)
    requires UniqueIds(tasks)
    ensures IsBlocked(task, tasks) <==>
      exists i, j :: 0 <= i < |task.dependencies| && 0 <= j < |tasks|
        && tasks[j].id == task.dependencies[i] && tasks[j].status != Completed
  {
    if IsBlocked(task, tasks) {
      var i :| 0 <= i < |task.dependencies| && BlocksOn(tasks, task.dependencies[i]);
      var j := FirstIndex(tasks, TaskId, task.dependencies[i]);
      assert tasks[j].id == task.dependencies[i] && tasks[j].status != Completed;
    }
    if exists i, j :: 0 <= i < |task.dependencies| && 0 <= j < |tasks|
        && tasks[j].id == task.dependencies[i] && tasks[j].status != Completed {
      var i, j :| 0 <= i < |task.dependencies| && 0 <= j < |tasks|
        && tasks[j].id == task.dependencies[i] && tasks[j].status != Completed;
      assert FirstIndex(tasks, TaskId, task.dependencies[i]) == j;
      assert BlocksOn(tasks, task.dependencies[i]);
    }
  }

  /** A dependency id no task carries never blocks. */
  lemma DanglingNeverBlocks(task: Task, tasks: seq<Task>)
    requires forall i, j :: 0 <= i < |task.dependencies| && 0 <= j < |tasks| ==> tasks[j].id != task.dependencies[i]
    ensures !IsBlocked(task, tasks)
  {
  }

  /** A task whose dependencies are all Completed tasks (or dangling) is free. */
  lemma CompletedDependenciesUnblock(task: Task, tasks: seq<Task>)
    requires forall j :: 0 <= j < |tasks| && tasks[j].id in task.dependencies ==> tasks[j].status == Completed
    ensures !IsBlocked(task, tasks)
  {
    forall i | 0 <= i < |task.dependencies|
      ensures !BlocksOn(tasks, task.dependencies[i])
    {
      var j := FirstIndex(tasks, TaskId, task.dependencies[i]);
      if j < |tasks| {
        assert tasks[j].id in task.dependencies;
      }
    }
  }

  /** The value of the priority filter select: `'All'` or one priority. */
  datatype PriorityFilter = AllPriorities | Only(priority: Priority)

  /** The tasks of the given priority, in list order. */
  function WithPriority(tasks: seq<Task>, p: Priority): (r: seq<Task>)
    ensures forall t :: t in r <==> t in tasks && t.priority == p
    ensures SubsequenceOf(r, tasks)
    ensures forall t :: multiset(r)[t] == if t.priority == p then multiset(tasks)[t] else 0
  {
    if |tasks| == 0 then []
    else
      assert tasks == [tasks[0]] + tasks[1..];
      if tasks[0].priority == p then [tasks[0]] + WithPriority(tasks[1..], p)
    else WithPriority(tasks[1..], p)
  }

  /** `filteredTasks`: the whole list for `'All'`, otherwise the tasks of that priority. */
  function Filtered(tasks: seq<Task>, f: PriorityFilter): (r: seq<Task>)
    ensures f.AllPriorities? ==> r == tasks
    ensures f.Only? ==> forall t :: t in r <==> t in tasks && t.priority == f.priority
    ensures f.Only? ==> forall t :: multiset(r)[t] == if t.priority == f.priority then multiset(tasks)[t] else 0
    ensures SubsequenceOf(r, tasks)
  {
    match f
    case AllPriorities => SubsequenceReflexive(tasks); tasks
    case Only(p) => WithPriority(tasks, p)
  }

  lemma {:induction false} SubsequenceReflexive<T>(s: seq<T>)
    ensures SubsequenceOf(s, s)
  {
    if s != [] {
      SubsequenceReflexive(s[1..]);
    }
  }

  /** `ids.filter(x => x !== d)`: every occurrence of `d` dropped, the rest in order. */
  function Without(ids: seq<string>, d: string): (r: seq<string>)
    ensures forall x :: x in r <==> x in ids && x != d
    ensures SubsequenceOf(r, ids)
    ensures forall x :: multiset(r)[x] == if x == d then 0 else multiset(ids)[x]
  {
    if |ids| == 0 then []
    else
      assert ids == [ids[0]] + ids[1..];
      if ids[0] == d then
      var r := Without(ids[1..], d);
      assert r != [] ==> r[0] in r;
      r
    else [ids[0]] + Without(ids[1..], d)
  }

  /** Dropping an id that does not occur changes nothing. */
  lemma {:induction false} WithoutAbsent(ids: seq<string>, d: string)
    requires d !in ids
    ensures Without(ids, d) == ids
  {
    if |ids| > 0 {
      WithoutAbsent(ids[1..], d);
      assert ids == [ids[0]] + ids[1..];
    }
  }

  /** Dropping after appending the same id undoes the append when the id was absent. */
  lemma {:induction false} WithoutAppended(ids: seq<string>, d: string)
    requires d !in ids
    ensures Without(ids + [d], d) == ids
  {
    if |ids| == 0 {
      assert [d][1..] == [];
    } else {
      WithoutAppended(ids[1..], d);
      assert (ids + [d])[1..] == ids[1..] + [d];
      assert ids == [ids[0]] + ids[1..];
    }
  }

  /**
   * The new dependency list of `toggleDependency`: a present id is removed
   * everywhere, an absent one is appended at the end.
   */
  function ToggledDeps(deps: seq<string>, d: string): (r: seq<string>)
    ensures d in deps ==> d !in r && (forall x :: x in r <==> x in deps && x != d) && SubsequenceOf(r, deps)
    ensures d in deps ==> forall x :: multiset(r)[x] == if x == d then 0 else multiset(deps)[x]
    ensures d !in deps ==> r == deps + [d]
  {
    if d in deps then Without(deps, d) else deps + [d]
  }

  /** Toggling an absent id twice restores the original list. */
  lemma ToggleTwiceRestores(deps: seq<string>, d: string)
    requires d !in deps
    ensures ToggledDeps(ToggledDeps(deps, d), d) == deps
  {
    WithoutAppended(deps, d);
  }

  /**
   * `toggleDependency(taskId, depId)`: the list to hand to the dependency
   * update for the first task with that id, or nothing for an unknown task.
   */
  function ToggleDependency(tasks: seq<Task>, taskId: string, depId: string): (r: Option<seq<string>>)
    ensures r.None? <==> forall j :: 0 <= j < |tasks| ==> tasks[j].id != taskId
    ensures r.Some? ==> (FindTask(tasks, taskId).Some?
                         && r.value == ToggledDeps(FindTask(tasks, taskId).value.dependencies, depId))
  {
    match FindTask(tasks, taskId)
    case None => None
    case Some(t) => Some(ToggledDeps(t.dependencies, depId))
  }

  /** The tasks offered as dependencies of `task`: every other task, in order. */
  function Candidates(tasks: seq<Task>, task: Task): (r: seq<Task>)
    ensures forall t :: t in r <==> t in tasks && t.id != task.id
    ensures SubsequenceOf(r, tasks)
    ensures forall t :: multiset(r)[t] == if t.id != task.id then multiset(tasks)[t] else 0
  {
    if |tasks| == 0 then []
    else
      assert tasks == [tasks[0]] + tasks[1..];
      if tasks[0].id != task.id then [tasks[0]] + Candidates(tasks[1..], task)
    else Candidates(tasks[1..], task)
  }

  /** A task's dependencies do not name the task itself. */
  predicate NoSelfDependency(t: Task)
  {
    t.id !in t.dependencies
  }

  /** Toggling an offered candidate never introduces a self-dependency. */
  lemma CandidateToggleKeepsNoSelf(tasks: seq<Task>, task: Task, c: Task)
    requires NoSelfDependency(task)
    requires c in Candidates(tasks, task)
    ensures task.id !in ToggledDeps(task.dependencies, c.id)
  {
  }

  /** `s.splice(i, 1)`. */
  function RemoveAt<T>(s: seq<T>, i: nat): (r: seq<T>)
    requires i < |s|
    ensures |r| == |s| - 1
    ensures forall k :: 0 <= k < |r| ==> r[k] == if k < i then s[k] else s[k + 1]
  {
    s[..i] + s[i + 1..]
  }

  /** `s.splice(i, 0, x)`. */
  function InsertAt<T>(s: seq<T>, i: nat, x: T): (r: seq<T>)
    requires i <= |s|
    ensures |r| == |s| + 1 && r[i] == x
    ensures forall k :: 0 <= k < |r| && k != i ==> r[k] == if k < i then s[k] else s[k - 1]
  {
    s[..i] + [x] + s[i..]
  }

  /** The list `handleDragOver` builds: the dragged item taken out and put back at `to`. */
  function Moved<T>(s: seq<T>, from: nat, to: nat): (r: seq<T>)
    requires from < |s| && to < |s|
    ensures |r| == |s| && r[to] == s[from]
  {
    InsertAt(RemoveAt(s, from), to, s[from])
  }

  /** Taking out what was just put in gives back the list. */
  lemma RemoveInserted<T>(s: seq<T>, i: nat, x: T)
    requires i <= |s|
    ensures RemoveAt(InsertAt(s, i, x), i) == s
  {
    var r := InsertAt(s, i, x);
    assert r[..i] == s[..i];
    assert r[i + 1..] == s[i..];
  }

  lemma InsertCounts<T>(s: seq<T>, i: nat, x: T)
    requires i <= |s|
    ensures multiset(InsertAt(s, i, x)) == multiset(s) + multiset{x}
  {
    assert s == s[..i] + s[i..];
  }

  lemma RemoveCounts<T>(s: seq<T>, i: nat)
    requires i < |s|
    ensures multiset(RemoveAt(s, i)) + multiset{s[i]} == multiset(s)
  {
    assert s == s[..i] + [s[i]] + s[i + 1..];
  }

  /**
   * A move is a permutation that puts the dragged item at the target index
   * and keeps every other item in its relative order.
   */
  lemma MovedIsReorder<T>(s: seq<T>, from: nat, to: nat)
    requires from < |s| && to < |s|
    ensures |Moved(s, from, to)| == |s|
    ensures Moved(s, from, to)[to] == s[from]
    ensures RemoveAt(Moved(s, from, to), to) == RemoveAt(s, from)
    ensures multiset(Moved(s, from, to)) == multiset(s)
  {
    var rest := RemoveAt(s, from);
    RemoveInserted(rest, to, s[from]);
    InsertCounts(rest, to, s[from]);
    RemoveCounts(s, from);
  }

  /**
   * Where each item ends up: the dragged item at the target, the items
   * between the two positions one place towards the old position, and
   * every other item where it was.
   */
  lemma MovedAt<T>(s: seq<T>, from: nat, to: nat, k: nat)
    requires from < |s| && to < |s| && k < |s|
    ensures Moved(s, from, to)[k] ==
      if k == to then s[from]
      else if from <= k < to then s[k + 1]
      else if to < k <= from then s[k - 1]
      else s[k]
  {
  }

  /** Moving an item onto its own index changes nothing. */
  lemma MovedInPlace<T>(s: seq<T>, i: nat)
    requires i < |s|
    ensures Moved(s, i, i) == s
  {
  }
}
