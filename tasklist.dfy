/**
 * The board component (components/TaskList.tsx) as a stateful object: the
 * priority filter, the expanded row and its tab, the comment input and the
 * index of the row being dragged. Its handlers read the shown task list of
 * the dashboard and call the dashboard's handlers, as the component calls
 * the callbacks it is given.
 */
module TaskListView {
  import opened Types
  import Board
  import Engine
  import CsvImport
  import Text
  import Dashboard

  /** The tabs of an expanded row. */
  datatype Tab = CommentsTab | HistoryTab | DepsTab

  /** Which row is expanded, and which of its tabs is shown. */
  datatype Expansion = Expansion(taskId: Option<string>, tab: Tab)

  /**
   * `toggleExpand`: clicking the expanded row collapses it and keeps the
   * tab; clicking any other row expands that row on its comments tab.
   */
  function ToggleExpand(x: Expansion, taskId: string): (r: Expansion)
    ensures x.taskId == Some(taskId) ==> r.taskId.None? && r.tab == x.tab
    ensures x.taskId != Some(taskId) ==> r == Expansion(Some(taskId), CommentsTab)
  {
    if x.taskId == Some(taskId) then x.(taskId := None)
    else Expansion(Some(taskId), CommentsTab)
  }

  /**
   * Clicking the same row twice returns to a collapsed board when it starts
   * collapsed, and to the same row on its comments tab when it starts
   * expanded on another row.
   */
  lemma ToggleExpandTwice(x: Expansion, taskId: string)
    ensures x.taskId.None? ==> ToggleExpand(ToggleExpand(x, taskId), taskId) == Expansion(None, CommentsTab)
    ensures x.taskId.Some? && x.taskId != Some(taskId) ==>
      ToggleExpand(ToggleExpand(x, taskId), taskId).taskId.None?
    ensures x.taskId == Some(taskId) ==> ToggleExpand(ToggleExpand(x, taskId), taskId) == Expansion(Some(taskId), CommentsTab)
  {
  }

  /** Every item of `a[lo + 1..hi + 1]` moves one place down. */
  method ShiftDown<T>(a: array<T>, lo: nat, hi: nat)
    requires lo <= hi < a.Length
    modifies a
    ensures forall k :: 0 <= k < a.Length ==> a[k] == if lo <= k < hi then old(a[k + 1]) else old(a[k])
  {
    var i := lo;
    while i < hi
      invariant lo <= i <= hi
      invariant forall k :: 0 <= k < a.Length ==> a[k] == if lo <= k < i then old(a[k + 1]) else old(a[k])
    {
      a[i] := a[i + 1];
      i := i + 1;
    }
  }

  /** Every item of `a[lo..hi]` moves one place up. */
  method ShiftUp<T>(a: array<T>, lo: nat, hi: nat)
    requires lo <= hi < a.Length
    modifies a
    ensures forall k :: 0 <= k < a.Length ==> a[k] == if lo < k <= hi then old(a[k - 1]) else old(a[k])
  {
    var i := hi;
    while i > lo
      invariant lo <= i <= hi
      invariant forall k :: 0 <= k < a.Length ==> a[k] == if i < k <= hi then old(a[k - 1]) else old(a[k])
    {
      a[i] := a[i - 1];
      i := i - 1;
    }
  }

  /**
   * The two `splice` calls of `handleDragOver` done on one array: the
   * items between the two positions shift by one towards the dragged
   * item's old place, and the dragged item lands on the target.
   */
  method MoveItem<T>(a: array<T>, from: nat, to: nat)
    requires from < a.Length && to < a.Length
    modifies a
    ensures a[..] == Board.Moved(old(a[..]), from, to)
  {
    ghost var s := a[..];
    var x := a[from];
    if from < to {
      ShiftDown(a, from, to);
    } else {
      ShiftUp(a, to, from);
    }
    a[to] := x;
    var m := Board.Moved(s, from, to);
    forall k | 0 <= k < a.Length
      ensures a[k] == m[k]
    {
      Board.MovedAt(s, from, to, k);
    }
  }

  class TaskList {
    var priorityFilter: Board.PriorityFilter
    var expanded: Expansion
    var commentInput: string
    var draggedItemIndex: Option<nat>

    constructor ()
      ensures priorityFilter == Board.AllPriorities
      ensures expanded == Expansion(None, CommentsTab)
      ensures commentInput == "" && draggedItemIndex.None?
    {
      priorityFilter := Board.AllPriorities;
      expanded := Expansion(None, CommentsTab);
      commentInput := "";
      draggedItemIndex := None;
    }

    /** `filteredTasks`: the rows the board shows. */
    function Rows(tasks: seq<Task>): (r: seq<Task>)
      reads this
      ensures Board.SubsequenceOf(r, tasks)
      ensures priorityFilter.AllPriorities? ==> r == tasks
      ensures priorityFilter.Only? ==>
        forall t :: multiset(r)[t] == if t.priority == priorityFilter.priority then multiset(tasks)[t] else 0
    {
      Board.Filtered(tasks, priorityFilter)
    }

    method SetPriorityFilter(f: Board.PriorityFilter)
      modifies this
      ensures priorityFilter == f
      ensures expanded == old(expanded) && commentInput == old(commentInput) && draggedItemIndex == old(draggedItemIndex)
    {
      priorityFilter := f;
    }

    /**
     * The checkbox of a row: the toggle reaches the dashboard only when the
     * task is not blocked in the shown list; the dashboard's handler itself
     * does not look at dependencies.
     */
    method ClickToggle(app: Dashboard.App, task: Task, stamp: Stamp)
      requires app.Valid()
      modifies app
      ensures app.Valid()
      ensures Board.IsBlocked(task, old(app.Tasks())) ==> app.workspaces == old(app.workspaces)
      ensures !Board.IsBlocked(task, old(app.Tasks())) ==>
        app.workspaces == Engine.UpdateActive(old(app.workspaces), app.activeId, Engine.EditTask(task.id, Engine.ToggleStatus(stamp)))
      ensures app.activeId == old(app.activeId) && app.lastUpdate == old(app.lastUpdate)
      ensures app.newMemberName == old(app.newMemberName)
    {
      if !Board.IsBlocked(task, app.Tasks()) {
        app.ToggleTask(task.id, stamp);
      }
    }

    /** `toggleDependency`: an unknown task changes nothing. */
    method ToggleDependency(app: Dashboard.App, taskId: string, depId: string)
      requires app.Valid()
      modifies app
      ensures app.Valid()
      ensures Board.ToggleDependency(old(app.Tasks()), taskId, depId).None? ==> app.workspaces == old(app.workspaces)
      ensures Board.ToggleDependency(old(app.Tasks()), taskId, depId).Some? ==>
        app.workspaces == Engine.UpdateActive(old(app.workspaces), app.activeId,
          Engine.EditTask(taskId, Engine.SetDependencies(Board.ToggleDependency(old(app.Tasks()), taskId, depId).value)))
      ensures app.activeId == old(app.activeId) && app.lastUpdate == old(app.lastUpdate)
      ensures app.newMemberName == old(app.newMemberName)
    {
      match Board.ToggleDependency(app.Tasks(), taskId, depId)
      case None =>
      case Some(deps) => app.UpdateDependencies(taskId, deps);
    }

    /**
     * `handleDragStart` on row `index`. Rows are draggable only under the
     * 'All' filter, so under a priority filter no drag starts and nothing
     * changes.
     */
    method DragStart(index: nat)
      modifies this
      ensures priorityFilter.AllPriorities? ==> draggedItemIndex == Some(index)
      ensures !priorityFilter.AllPriorities? ==> draggedItemIndex == old(draggedItemIndex)
      ensures priorityFilter == old(priorityFilter) && expanded == old(expanded) && commentInput == old(commentInput)
    {
      if priorityFilter.AllPriorities? {
        draggedItemIndex := Some(index);
      }
    }

    /**
     * `handleDragOver` on row `index`: nothing happens without a dragged
     * row or over the dragged row itself; otherwise the dashboard receives
     * the list with the dragged task moved to `index`, which becomes the
     * dragged index.
     */
    method DragOver(app: Dashboard.App, index: nat)
      requires app.Valid()
      requires index < |app.Tasks()|
      requires draggedItemIndex.Some? ==> draggedItemIndex.value < |app.Tasks()|
      modifies this, app
      ensures app.Valid()
      ensures old(draggedItemIndex) == None || old(draggedItemIndex) == Some(index) ==>
        app.workspaces == old(app.workspaces) && draggedItemIndex == old(draggedItemIndex)
      ensures old(draggedItemIndex).Some? && old(draggedItemIndex) != Some(index) ==>
        && app.workspaces == Engine.UpdateActive(old(app.workspaces), app.activeId,
             Engine.Reorder(Board.Moved(old(app.Tasks()), old(draggedItemIndex).value, index)))
        && draggedItemIndex == Some(index)
      ensures app.activeId == old(app.activeId) && app.lastUpdate == old(app.lastUpdate)
      ensures app.newMemberName == old(app.newMemberName)
      ensures priorityFilter == old(priorityFilter) && expanded == old(expanded) && commentInput == old(commentInput)
    {
      if draggedItemIndex == None || draggedItemIndex == Some(index) {
        return;
      }
      var from := draggedItemIndex.value;
      var tasks := app.Tasks();
      var copy := new Task[|tasks|](i requires 0 <= i < |tasks| => tasks[i]);
      assert copy[..] == tasks;
      MoveItem(copy, from, index);
      draggedItemIndex := Some(index);
      app.ReorderTasks(copy[..]);
    }

    method DragEnd()
      modifies this
      ensures draggedItemIndex.None?
      ensures priorityFilter == old(priorityFilter) && expanded == old(expanded) && commentInput == old(commentInput)
    {
      draggedItemIndex := None;
    }

    method ClickExpand(taskId: string)
      modifies this
      ensures expanded == ToggleExpand(old(expanded), taskId)
      ensures priorityFilter == old(priorityFilter) && commentInput == old(commentInput)
      ensures draggedItemIndex == old(draggedItemIndex)
    {
      expanded := ToggleExpand(expanded, taskId);
    }

    method SelectTab(tab: Tab)
      modifies this
      ensures expanded == old(expanded).(tab := tab)
      ensures priorityFilter == old(priorityFilter) && commentInput == old(commentInput)
      ensures draggedItemIndex == old(draggedItemIndex)
    {
      expanded := expanded.(tab := tab);
    }

    method SetCommentInput(text: string)
      modifies this
      ensures commentInput == text
      ensures priorityFilter == old(priorityFilter) && expanded == old(expanded)
      ensures draggedItemIndex == old(draggedItemIndex)
    {
      commentInput := text;
    }

    /** Posting the comment input (empty text included) on a task, then clearing the input. */
    method SubmitComment(app: Dashboard.App, taskId: string, stamp: Stamp)
      requires app.Valid()
      modifies this, app
      ensures app.Valid()
      ensures app.workspaces == Engine.UpdateActive(old(app.workspaces), app.activeId,
        Engine.EditTask(taskId, Engine.AddComment(Comment(stamp.id, Engine.CurrentUser, old(commentInput), stamp.time))))
      ensures commentInput == ""
      ensures app.activeId == old(app.activeId) && app.lastUpdate == old(app.lastUpdate)
      ensures app.newMemberName == old(app.newMemberName)
      ensures priorityFilter == old(priorityFilter) && expanded == old(expanded)
      ensures draggedItemIndex == old(draggedItemIndex)
    {
      app.AddComment(taskId, commentInput, stamp);
      commentInput := "";
    }

    /**
     * `reader.onload` with the file's text: a text of fewer than two lines
     * is ignored; otherwise the tasks of its data lines, filled in from the
     * active team, are appended to the shown list.
     */
    method UploadFile(app: Dashboard.App, text: string, now: string)
      requires app.Valid()
      modifies app
      ensures app.Valid()
      ensures |Text.Split(text, '\n')| < 2 ==> app.workspaces == old(app.workspaces)
      ensures |Text.Split(text, '\n')| >= 2 ==>
        app.workspaces == Engine.UpdateActive(old(app.workspaces), app.activeId,
          Engine.Upload(CsvImport.ImportTasks(text, old(app.Active().team), now)))
      ensures app.activeId == old(app.activeId) && app.lastUpdate == old(app.lastUpdate)
      ensures app.newMemberName == old(app.newMemberName)
    {
      var lines := Text.Split(text, '\n');
      if |lines| < 2 {
        return;
      }
      var newTasks := CsvImport.ParseFile(text, app.Active().team, now);
      app.UploadTasks(newTasks);
    }
  }

  /**
   * The dashboard's toggle handler does not check dependencies: in the seed
   * list task 3 is blocked, yet toggling it through the handler completes
   * it. Only the board's checkbox keeps it from being called.
   */
  lemma HandlerCompletesBlockedTask(stamp: Stamp)
    ensures var ts := Dashboard.SeedTasks();
      && Board.IsBlocked(ts[2], ts)
      && Engine.EditTasks(ts, "3", Engine.ToggleStatus(stamp))[2].status == Completed
  {
    Dashboard.SeedBlocking();
  }
}
