/**
 * The dashboard component of App.tsx as a stateful object: the workspace
 * list, the active workspace id, the text of the last live update and the
 * new-member input field. Every handler overwrites `workspaces` with the
 * result of a transform from the engine; fresh ids, clock readings and the
 * draws of `Math.random()` arrive as arguments.
 */
module Dashboard {
  import opened Types
  import Engine
  import Board
  import Text

  /** The six tasks the first workspace starts with. */
  function SeedTasks(): seq<Task>
  {
    [ Task("1", "Identify all EC2 Classic instances", Compute, Completed, High, "DevOps Team", "2025-02-10",
           [], [], [], ""),
      Task("2", "Snapshot and migrate S3 buckets to new org", Storage, InProgress, High, "Data Team", "2025-02-15",
           [Comment("c1", "System", "Migration started. Estimated time: 4 hours.", "2025-02-10 10:00 AM")],
           ["1"], [], ""),
      Task("3", "Update DNS records for VPC Endpoints", Networking, Pending, Medium, "Network Eng", "2025-02-18",
           [], ["2"], [], ""),
      Task("4", "Revoke legacy IAM roles and policies", Security, Pending, High, "Security Team", "2025-02-20",
           [], ["2", "3"], [], ""),
      Task("5", "Final decommission of legacy Direct Connect", Networking, Blocked, High, "Network Eng", "2025-02-22",
           [Comment("c2", "NetAdmin", "Blocked by dependency on legacy partner connection.", "2025-02-12 02:30 PM")],
           ["3"], [], ""),
      Task("6", "Final sanity check on all resource deletion", Cleanup, Pending, Medium, "Audit Team", "2025-02-25",
           [], ["4", "5"], [], "") ]
  }

  function SeedWorkspace(): Workspace
  {
    Workspace("ws-1", "Legacy Production (AWS 1.0)", Healthy,
              ["DevOps Team", "Data Team", "Network Eng", "Audit Team"], SeedTasks(), "us-east-1")
  }

  /**
   * `workspaces.find(w => w.id === activeWorkspaceId) || workspaces[0]`:
   * the first workspace with the active id, or the first workspace.
   */
  function ActiveOf(wss: seq<Workspace>, activeId: string): (w: Workspace)
    requires |wss| > 0
    ensures w in wss
    ensures (exists i :: 0 <= i < |wss| && wss[i].id == activeId) ==> w.id == activeId
    ensures (exists i :: 0 <= i < |wss| && wss[i].id == activeId) ==>
      exists k :: (0 <= k < |wss| && w == wss[k] && forall j :: 0 <= j < k ==> wss[j].id != activeId)
    ensures (forall i :: 0 <= i < |wss| ==> wss[i].id != activeId) ==> w == wss[0]
  {
    var k := FirstIndex(wss, WorkspaceId, activeId);
    if k < |wss| then wss[k] else wss[0]
  }

  /**
   * When the active id names a workspace, what the dashboard reads after a
   * handler is the handler's edit of what it read before.
   */
  lemma ActiveSeesEdit(wss: seq<Workspace>, activeId: string, e: Engine.WorkspaceEdit)
    requires exists i :: 0 <= i < |wss| && wss[i].id == activeId
    ensures ActiveOf(Engine.UpdateActive(wss, activeId, e), activeId) == Engine.ApplyToWorkspace(ActiveOf(wss, activeId), e)
  {
    var k := FirstIndex(wss, WorkspaceId, activeId);
    Engine.UpdateKeepsLookup(wss, activeId, e, activeId);
    assert k < |wss|;
  }

  /**
   * With an active id that names no workspace, reads fall back to the first
   * workspace while every handler leaves the list as it is.
   */
  lemma DanglingActiveIsReadOnly(wss: seq<Workspace>, activeId: string, e: Engine.WorkspaceEdit)
    requires |wss| > 0
    requires forall i :: 0 <= i < |wss| ==> wss[i].id != activeId
    ensures ActiveOf(wss, activeId) == wss[0]
    ensures Engine.UpdateActive(wss, activeId, e) == wss
    ensures wss[0].id != activeId
  {
    Engine.UpdateUnknownActive(wss, activeId, e);
  }

  /** The workspace `createNewWorkspace` builds: one default member and no tasks. */
  function NewWorkspace(id: string, name: string, region: string, status: WorkspaceStatus): (w: Workspace)
    ensures w.tasks == [] && w.team == [Engine.DefaultMember]
    ensures w.id == id && w.name == name && w.region == region && w.status == status
  {
    Workspace(id, name, status, [Engine.DefaultMember], [], region)
  }

  /**
   * The `tasks.forEach` loop of `checkReminders`: the tasks that raise an
   * alert at time `now`, in list order.
   */
  method ScanReminders(tasks: seq<Task>, now: int, parse: string -> Option<int>) returns (alerts: seq<Task>)
    ensures alerts == Engine.DueReminders(tasks, now, parse)
  {
    alerts := [];
    for i := 0 to |tasks|
      invariant alerts == Engine.DueReminders(tasks[..i], now, parse)
    {
      var task := tasks[i];
      Engine.DueRemindersStep(tasks, i, now, parse);
      if task.reminder != "" {
        var at := parse(task.reminder);
        if at.Some? && at.value <= now && task.status != Completed {
          if now - at.value < Engine.ReminderWindow {
            alerts := alerts + [task];
          }
        }
      }
    }
    assert tasks[..|tasks|] == tasks;
  }

  class App {
    var workspaces: seq<Workspace>
    var activeId: string
    var lastUpdate: string
    var newMemberName: string

    /** There is always a workspace to fall back on. */
    predicate Valid()
      reads this
    {
      |workspaces| > 0
    }

    /** The workspace the dashboard shows. */
    function Active(): (w: Workspace)
      reads this
      requires Valid()
      ensures w in workspaces
    {
      ActiveOf(workspaces, activeId)
    }

    /** The task list the dashboard and the board show. */
    function Tasks(): seq<Task>
      reads this
      requires Valid()
    {
      Active().tasks
    }

    constructor ()
      ensures Valid()
      ensures workspaces == [SeedWorkspace()] && activeId == "ws-1"
      ensures lastUpdate == "Just now" && newMemberName == ""
    {
      workspaces := [SeedWorkspace()];
      activeId := "ws-1";
      lastUpdate := "Just now";
      newMemberName := "";
    }

    /** `updateActiveWorkspace`: the edit applied to the workspaces with the active id. */
    method UpdateActiveWorkspace(e: Engine.WorkspaceEdit)
      requires Valid()
      modifies this
      ensures Valid()
      ensures workspaces == Engine.UpdateActive(old(workspaces), activeId, e)
      ensures activeId == old(activeId) && lastUpdate == old(lastUpdate) && newMemberName == old(newMemberName)
    {
      workspaces := Engine.UpdateActive(workspaces, activeId, e);
    }

    method ToggleTask(id: string, stamp: Stamp)
      requires Valid()
      modifies this
      ensures Valid()
      ensures workspaces == Engine.UpdateActive(old(workspaces), activeId, Engine.EditTask(id, Engine.ToggleStatus(stamp)))
      ensures activeId == old(activeId) && lastUpdate == old(lastUpdate) && newMemberName == old(newMemberName)
    {
      UpdateActiveWorkspace(Engine.EditTask(id, Engine.ToggleStatus(stamp)));
    }

    method UploadTasks(newTasks: seq<Task>)
      requires Valid()
      modifies this
      ensures Valid()
      ensures workspaces == Engine.UpdateActive(old(workspaces), activeId, Engine.Upload(newTasks))
      ensures activeId == old(activeId) && lastUpdate == old(lastUpdate) && newMemberName == old(newMemberName)
    {
      UpdateActiveWorkspace(Engine.Upload(newTasks));
    }

    /** The new comment is written by the current user, with the given id and time. */
    method AddComment(taskId: string, text: string, stamp: Stamp)
      requires Valid()
      modifies this
      ensures Valid()
      ensures workspaces == Engine.UpdateActive(old(workspaces), activeId,
        Engine.EditTask(taskId, Engine.AddComment(Comment(stamp.id, Engine.CurrentUser, text, stamp.time))))
      ensures activeId == old(activeId) && lastUpdate == old(lastUpdate) && newMemberName == old(newMemberName)
    {
      var c := Comment(stamp.id, Engine.CurrentUser, text, stamp.time);
      UpdateActiveWorkspace(Engine.EditTask(taskId, Engine.AddComment(c)));
    }

    method ReorderTasks(newTasks: seq<Task>)
      requires Valid()
      modifies this
      ensures Valid()
      ensures workspaces == Engine.UpdateActive(old(workspaces), activeId, Engine.Reorder(newTasks))
      ensures activeId == old(activeId) && lastUpdate == old(lastUpdate) && newMemberName == old(newMemberName)
    {
      UpdateActiveWorkspace(Engine.Reorder(newTasks));
    }

    method UpdateDependencies(taskId: string, deps: seq<string>)
      requires Valid()
      modifies this
      ensures Valid()
      ensures workspaces == Engine.UpdateActive(old(workspaces), activeId, Engine.EditTask(taskId, Engine.SetDependencies(deps)))
      ensures activeId == old(activeId) && lastUpdate == old(lastUpdate) && newMemberName == old(newMemberName)
    {
      UpdateActiveWorkspace(Engine.EditTask(taskId, Engine.SetDependencies(deps)));
    }

    method UpdateTaskOwner(taskId: string, owner: string, stamp: Stamp)
      requires Valid()
      modifies this
      ensures Valid()
      ensures workspaces == Engine.UpdateActive(old(workspaces), activeId, Engine.EditTask(taskId, Engine.SetOwner(owner, stamp)))
      ensures activeId == old(activeId) && lastUpdate == old(lastUpdate) && newMemberName == old(newMemberName)
    {
      UpdateActiveWorkspace(Engine.EditTask(taskId, Engine.SetOwner(owner, stamp)));
    }

    method UpdateTaskPriority(taskId: string, priority: Priority, stamp: Stamp)
      requires Valid()
      modifies this
      ensures Valid()
      ensures workspaces == Engine.UpdateActive(old(workspaces), activeId, Engine.EditTask(taskId, Engine.SetPriority(priority, stamp)))
      ensures activeId == old(activeId) && lastUpdate == old(lastUpdate) && newMemberName == old(newMemberName)
    {
      UpdateActiveWorkspace(Engine.EditTask(taskId, Engine.SetPriority(priority, stamp)));
    }

    method SetReminder(taskId: string, reminder: string, stamp: Stamp)
      requires Valid()
      modifies this
      ensures Valid()
      ensures workspaces == Engine.UpdateActive(old(workspaces), activeId, Engine.EditTask(taskId, Engine.SetReminder(reminder, stamp)))
      ensures activeId == old(activeId) && lastUpdate == old(lastUpdate) && newMemberName == old(newMemberName)
    {
      UpdateActiveWorkspace(Engine.EditTask(taskId, Engine.SetReminder(reminder, stamp)));
    }

    method UpdateWorkspaceStatus(status: WorkspaceStatus)
      requires Valid()
      modifies this
      ensures Valid()
      ensures workspaces == Engine.UpdateActive(old(workspaces), activeId, Engine.SetStatus(status))
      ensures activeId == old(activeId) && lastUpdate == old(lastUpdate) && newMemberName == old(newMemberName)
    {
      UpdateActiveWorkspace(Engine.SetStatus(status));
    }

    /** The member-name input field. */
    method SetNewMemberName(name: string)
      modifies this
      ensures newMemberName == name
      ensures workspaces == old(workspaces) && activeId == old(activeId) && lastUpdate == old(lastUpdate)
    {
      newMemberName := name;
    }

    /**
     * `handleAddTeamMember`: a name that trims to nothing changes nothing
     * (the field keeps its text); otherwise the trimmed name joins the
     * active team and the field is cleared.
     */
    method AddTeamMember()
      requires Valid()
      modifies this
      ensures Valid()
      ensures Text.Trim(old(newMemberName)) == "" ==>
        workspaces == old(workspaces) && newMemberName == old(newMemberName)
      ensures Text.Trim(old(newMemberName)) != "" ==>
        && workspaces == Engine.UpdateActive(old(workspaces), activeId, Engine.AddMember(Text.Trim(old(newMemberName))))
        && newMemberName == ""
      ensures activeId == old(activeId) && lastUpdate == old(lastUpdate)
    {
      var name := Text.Trim(newMemberName);
      if name == "" {
        return;
      }
      UpdateActiveWorkspace(Engine.AddMember(name));
      newMemberName := "";
    }

    method RemoveTeamMember(member: string)
      requires Valid()
      modifies this
      ensures Valid()
      ensures workspaces == Engine.UpdateActive(old(workspaces), activeId, Engine.RemoveMember(member))
      ensures activeId == old(activeId) && lastUpdate == old(lastUpdate) && newMemberName == old(newMemberName)
    {
      UpdateActiveWorkspace(Engine.RemoveMember(member));
    }

    /** `createNewWorkspace`: append the new workspace and make it the active one. */
    method CreateWorkspace(id: string, name: string, region: string, status: WorkspaceStatus)
      requires Valid()
      modifies this
      ensures Valid()
      ensures workspaces == old(workspaces) + [NewWorkspace(id, name, region, status)]
      ensures activeId == id
      ensures lastUpdate == old(lastUpdate) && newMemberName == old(newMemberName)
    {
      workspaces := workspaces + [NewWorkspace(id, name, region, status)];
      activeId := id;
    }

    /** The header's workspace selector. */
    method SwitchWorkspace(id: string)
      modifies this
      ensures activeId == id
      ensures workspaces == old(workspaces) && lastUpdate == old(lastUpdate) && newMemberName == old(newMemberName)
    {
      activeId := id;
    }

    /**
     * One tick of `simulateLiveUpdate`, as one step: the simulator's change
     * to the workspaces with the active id, and the time of the update.
     */
    method SimulateLiveUpdate(pick: real, coin: real, stamp: Stamp, time: string)
      requires Valid()
      requires 0.0 <= pick < 1.0 && 0.0 <= coin < 1.0
      modifies this
      ensures Valid()
      ensures workspaces == Engine.SimulateActive(old(workspaces), activeId, pick, coin, stamp)
      ensures lastUpdate == time
      ensures activeId == old(activeId) && newMemberName == old(newMemberName)
    {
      workspaces := Engine.SimulateActive(workspaces, activeId, pick, coin, stamp);
      lastUpdate := time;
    }

    /**
     * One run of `checkReminders` at time `now`: the tasks of the shown
     * list that raise an alert, in list order.
     */
    method CheckReminders(now: int, parse: string -> Option<int>) returns (alerts: seq<Task>)
      requires Valid()
      ensures alerts == Engine.DueReminders(Tasks(), now, parse)
    {
      alerts := ScanReminders(Tasks(), now, parse);
    }

    /**
     * 'Overall Progress' of the shown list: the nearest whole percentage of
     * Completed tasks, counting an empty list as one task.
     */
    function ProgressPercent(): (p: nat)
      reads this
      requires Valid()
      ensures p <= 100
      ensures var done := multiset(Engine.Statuses(Tasks()))[Completed];
        var total := if |Tasks()| == 0 then 1 else |Tasks()|;
        2 * total * p <= 200 * done + total < 2 * total * p + 2 * total
    {
      Engine.Progress(Tasks())
    }

    /** The 'Blockers' figure: how many shown tasks have status Blocked. */
    function Blockers(): (n: nat)
      reads this
      requires Valid()
      ensures n == multiset(Engine.Statuses(Tasks()))[Blocked]
      ensures n <= |Tasks()|
    {
      Engine.BlockerCount(Tasks())
    }
  }

  /** In the seed list task 3 waits on task 2, which is In Progress; task 1 waits on nothing. */
  lemma SeedBlocking()
    ensures Board.IsBlocked(SeedTasks()[2], SeedTasks())
    ensures !Board.IsBlocked(SeedTasks()[0], SeedTasks())
  {
    var ts := SeedTasks();
    assert FirstIndex(ts, TaskId, "2") == 1;
    assert Board.BlocksOn(ts, ts[2].dependencies[0]);
  }

  /** The seed dashboard reads 17%: one of its six tasks is Completed. */
  lemma SeedProgress()
    ensures Engine.CountStatus(SeedTasks(), Completed) == 1
    ensures Engine.Progress(SeedTasks()) == 17
  {
    SeedCompleted();
    OneOfSix(SeedTasks());
  }

  /** Six tasks with one Completed round to 17%. */
  lemma OneOfSix(tasks: seq<Task>)
    requires |tasks| == 6 && Engine.CountStatus(tasks, Completed) == 1
    ensures Engine.Progress(tasks) == 17
  {
  }

  /** Only the first seed task is Completed. */
  lemma SeedCompleted()
    ensures Engine.CountStatus(SeedTasks(), Completed) == 1
  {
    var ts := SeedTasks();
    assert Engine.CountStatus(ts[1..], Completed) == 0 by {
      assert forall i :: 0 <= i < |ts[1..]| ==> ts[1..][i].status != Completed;
    }
    assert ts == [ts[0]] + ts[1..];
    Engine.CountStatusConcat([ts[0]], ts[1..], Completed);
  }

  /** The seed dashboard shows one blocker, task 5. */
  lemma SeedBlockers()
    ensures Engine.BlockerCount(SeedTasks()) == 1
  {
    var ts := SeedTasks();
    assert ts[..4] + [ts[4]] + ts[5..] == ts;
    assert Engine.CountStatus(ts, Blocked) == 1 by {
      assert ts[1..][1..][1..][1..] == ts[4..];
      assert ts[4..][1..] == ts[5..];
      assert Engine.CountStatus(ts[5..], Blocked) == 0;
      assert forall i :: 0 <= i < 4 ==> ts[..4][i].status != Blocked;
    }
  }
}
