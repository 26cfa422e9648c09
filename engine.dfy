/**
 * The state transforms behind the handlers of App.tsx, as pure functions on
 * tasks and workspaces, and the read-side projections of the dashboard.
 *
 * Every handler rebuilds the workspaces whose id is the active id
 * (`updateActiveWorkspace`); inside a workspace the task handlers rebuild the
 * tasks whose id is the given one. Both layers are modelled once, over an
 * edit value, so that what is promised of the layering holds for every
 * handler. Fresh ids, clock readings and random draws are parameters.
 */
module Engine {
  import opened Types
  import Board
  import Arith

  /** Author of every entry and comment a user handler creates. */
  const CurrentUser: string := "Current User"
  /** What the audit trail records as the previous value of an unset reminder. */
  const NoReminder: string := "None"
  const BotName: string := "Decommission Bot"
  const BotText: string := "Routine background check performed."
  /** The one team member of a freshly created workspace. */
  const DefaultMember: string := "System Admin"
  /** Width of the reminder window, in milliseconds. */
  const ReminderWindow: int := 60000

  function NewEntry(h: Stamp, field: HistoryField, oldValue: string, newValue: string): HistoryEntry
  {
    HistoryEntry(h.id, field, oldValue, newValue, h.time, CurrentUser)
  }

  /** What a task handler does to one matching task. */
  datatype TaskEdit =
    | ToggleStatus(stamp: Stamp)
    | SetOwner(owner: string, stamp: Stamp)
    | SetPriority(priority: Priority, stamp: Stamp)
    | SetReminder(reminder: string, stamp: Stamp)
    | AddComment(comment: Comment)
    | SetDependencies(deps: seq<string>)
  {
    /** The edits that write one of the four audited fields. */
    predicate Tracked()
    {
      ToggleStatus? || SetOwner? || SetPriority? || SetReminder?
    }
  }

  /** The audit text of a reminder: its value, or "None" when unset. */
  function ReminderText(reminder: string): string
  {
    if reminder == "" then NoReminder else reminder
  }

  /**
   * One task rebuilt by a handler. Audited edits replace their field and
   * append exactly one entry naming it with the previous and the new value;
   * the other edits leave the history alone; nothing else changes.
   */
  function ApplyToTask(t: Task, e: TaskEdit): (r: Task)
    ensures r.id == t.id
    ensures |r.history| == |t.history| + (if e.Tracked() then 1 else 0)
    ensures r.history[..|t.history|] == t.history
    ensures e.ToggleStatus? ==>
      && r.status in {Pending, Completed}
      && (r.status == Completed <==> t.status != Completed)
      && r.history[|t.history|] == NewEntry(e.stamp, StatusField, StatusText(t.status), StatusText(r.status))
      && r == t.(status := r.status, history := r.history)
    ensures e.SetOwner? ==>
      && r.history[|t.history|] == NewEntry(e.stamp, OwnerField, t.owner, e.owner)
      && r == t.(owner := e.owner, history := r.history)
    ensures e.SetPriority? ==>
      && r.history[|t.history|] == NewEntry(e.stamp, PriorityField, PriorityText(t.priority), PriorityText(e.priority))
      && r == t.(priority := e.priority, history := r.history)
    ensures e.SetReminder? ==>
      && r.history[|t.history|] == NewEntry(e.stamp, ReminderField, ReminderText(t.reminder), e.reminder)
      && r == t.(reminder := e.reminder, history := r.history)
    ensures e.AddComment? ==> r == t.(comments := t.comments + [e.comment])
    ensures e.SetDependencies? ==> r == t.(dependencies := e.deps)
  {
    match e
    case ToggleStatus(h) =>
      var s := if t.status == Completed then Pending else Completed;
      t.(status := s, history := t.history + [NewEntry(h, StatusField, StatusText(t.status), StatusText(s))])
    case SetOwner(o, h) =>
      t.(owner := o, history := t.history + [NewEntry(h, OwnerField, t.owner, o)])
    case SetPriority(p, h) =>
      t.(priority := p, history := t.history + [NewEntry(h, PriorityField, PriorityText(t.priority), PriorityText(p))])
    case SetReminder(rem, h) =>
      t.(reminder := rem, history := t.history + [NewEntry(h, ReminderField, ReminderText(t.reminder), rem)])
    case AddComment(c) =>
      t.(comments := t.comments + [c])
    case SetDependencies(deps) =>
      t.(dependencies := deps)
  }

  /**
   * Two toggles in a row: a Completed task comes back Completed, any other
   * ends up Pending (In Progress and Blocked are not restored). Only the
   * status and the history change, and the history records both flips,
   * the first from the original status and the second back to the result.
   */
  lemma ToggleTwice(t: Task, h1: Stamp, h2: Stamp)
    ensures var r := ApplyToTask(ApplyToTask(t, ToggleStatus(h1)), ToggleStatus(h2));
      && r.status == (if t.status == Completed then Completed else Pending)
      && r == t.(status := r.status, history := r.history)
      && |r.history| == |t.history| + 2
      && r.history[..|t.history|] == t.history
      && r.history[|t.history|] == NewEntry(h1, StatusField, StatusText(t.status), StatusText(ApplyToTask(t, ToggleStatus(h1)).status))
      && r.history[|t.history| + 1] == NewEntry(h2, StatusField, StatusText(ApplyToTask(t, ToggleStatus(h1)).status), StatusText(r.status))
  {
  }

  /** `tasks.map(t => t.id === id ? edit(t) : t)`: only tasks with that id change. */
  function EditTasks(tasks: seq<Task>, id: string, e: TaskEdit): (r: seq<Task>)
    ensures |r| == |tasks|
    ensures forall i :: 0 <= i < |tasks| && tasks[i].id != id ==> r[i] == tasks[i]
    ensures forall i :: 0 <= i < |tasks| && tasks[i].id == id ==> r[i] == ApplyToTask(tasks[i], e)
  {
    seq(|tasks|, i requires 0 <= i < |tasks| => if tasks[i].id == id then ApplyToTask(tasks[i], e) else tasks[i])
  }

  /** An unknown task id leaves the list as it was. */
  lemma EditUnknownTask(tasks: seq<Task>, id: string, e: TaskEdit)
    requires forall i :: 0 <= i < |tasks| ==> tasks[i].id != id
    ensures EditTasks(tasks, id, e) == tasks
  {
  }

  /** Edits keep every id in place, so looking a task up by id finds the same position. */
  lemma EditKeepsLookup(tasks: seq<Task>, id: string, e: TaskEdit, x: string)
    ensures FirstIndex(EditTasks(tasks, id, e), TaskId, x) == FirstIndex(tasks, TaskId, x)
  {
  }

  /**
   * Completing the one task another task waits on frees it: the waiting
   * task is blocked before the toggle, unchanged by it, and not blocked
   * after it.
   */
  lemma ToggleUnblocksDependent(tasks: seq<Task>, j: nat, k: nat, stamp: Stamp)
    requires j < |tasks| && k < |tasks|
    requires tasks[k].dependencies == [tasks[j].id] && tasks[k].id != tasks[j].id
    requires tasks[j].status != Completed
    requires FirstIndex(tasks, TaskId, tasks[j].id) == j
    ensures Board.IsBlocked(tasks[k], tasks)
    ensures var ts := EditTasks(tasks, tasks[j].id, ToggleStatus(stamp));
      ts[k] == tasks[k] && ts[j].status == Completed && !Board.IsBlocked(ts[k], ts)
  {
    var id := tasks[j].id;
    Board.SingleDependency(tasks[k], tasks, j);
    var ts := EditTasks(tasks, id, ToggleStatus(stamp));
    EditKeepsLookup(tasks, id, ToggleStatus(stamp), id);
    assert ts[j] == ApplyToTask(tasks[j], ToggleStatus(stamp));
    Board.SingleDependency(ts[k], ts, j);
  }

  /** What a handler does to the active workspace. */
  datatype WorkspaceEdit =
    | EditTask(taskId: string, edit: TaskEdit)
    | Reorder(newOrder: seq<Task>)
    | Upload(newTasks: seq<Task>)
    | SetStatus(status: WorkspaceStatus)
    | AddMember(name: string)
    | RemoveMember(member: string)

  /**
   * One workspace rebuilt by a handler: the task handlers touch only the
   * tasks, the team handlers only the team (task owners are not reassigned),
   * and id, name and region never change.
   */
  function ApplyToWorkspace(ws: Workspace, e: WorkspaceEdit): (r: Workspace)
    ensures r.id == ws.id && r.name == ws.name && r.region == ws.region
    ensures e.EditTask? ==> r == ws.(tasks := EditTasks(ws.tasks, e.taskId, e.edit))
    ensures e.Reorder? ==> r == ws.(tasks := e.newOrder)
    ensures e.Upload? ==> r == ws.(tasks := ws.tasks + e.newTasks)
    ensures e.SetStatus? ==> r == ws.(status := e.status)
    ensures e.AddMember? ==> r == ws.(team := ws.team + [e.name])
    ensures e.RemoveMember? ==>
      && r.tasks == ws.tasks && r.status == ws.status
      && (forall m :: m in r.team <==> m in ws.team && m != e.member)
      && (forall m :: multiset(r.team)[m] == if m == e.member then 0 else multiset(ws.team)[m])
      && Board.SubsequenceOf(r.team, ws.team)
  {
    match e
    case EditTask(id, te) => ws.(tasks := EditTasks(ws.tasks, id, te))
    case Reorder(order) => ws.(tasks := order)
    case Upload(more) => ws.(tasks := ws.tasks + more)
    case SetStatus(s) => ws.(status := s)
    case AddMember(name) => ws.(team := ws.team + [name])
    case RemoveMember(m) => ws.(team := Board.Without(ws.team, m))
  }

  /** `updateActiveWorkspace`: only workspaces whose id is the active id change. */
  function UpdateActive(wss: seq<Workspace>, activeId: string, e: WorkspaceEdit): (r: seq<Workspace>)
    ensures |r| == |wss|
    ensures forall i :: 0 <= i < |wss| && wss[i].id != activeId ==> r[i] == wss[i]
    ensures forall i :: 0 <= i < |wss| && wss[i].id == activeId ==> r[i] == ApplyToWorkspace(wss[i], e)
  {
    seq(|wss|, i requires 0 <= i < |wss| => if wss[i].id == activeId then ApplyToWorkspace(wss[i], e) else wss[i])
  }

  /** Handlers keep every workspace id in place, so the active lookup finds the same position. */
  lemma UpdateKeepsLookup(wss: seq<Workspace>, activeId: string, e: WorkspaceEdit, x: string)
    ensures FirstIndex(UpdateActive(wss, activeId, e), WorkspaceId, x) == FirstIndex(wss, WorkspaceId, x)
  {
  }

  /** An active id that names no workspace makes every handler a no-op. */
  lemma UpdateUnknownActive(wss: seq<Workspace>, activeId: string, e: WorkspaceEdit)
    requires forall i :: 0 <= i < |wss| ==> wss[i].id != activeId
    ensures UpdateActive(wss, activeId, e) == wss
  {
  }

  /**
   * Within an edited workspace, every task keeps its id and its audit
   * history only grows, by exactly one entry for audited edits of a
   * matching task and by none otherwise.
   */
  lemma {:induction false} HistoryOnlyGrows(ws: Workspace, id: string, te: TaskEdit, i: nat)
    requires i < |ws.tasks|
    ensures var t := ws.tasks[i]; var r := ApplyToWorkspace(ws, EditTask(id, te)).tasks[i];
      && r.id == t.id
      && r.history[..|t.history|] == t.history
      && |r.history| == |t.history| + (if t.id == id && te.Tracked() then 1 else 0)
  {
    var r := EditTasks(ws.tasks, id, te);
    if ws.tasks[i].id == id {
      assert r[i] == ApplyToTask(ws.tasks[i], te);
    } else {
      assert r[i] == ws.tasks[i];
    }
  }

  // ---------------------------------------------------------------------------
  // Simulated live update

  /** The tasks the simulator may pick: those not Completed, in list order. */
  function Incomplete(tasks: seq<Task>): (r: seq<Task>)
    ensures forall t :: t in r <==> t in tasks && t.status != Completed
    ensures |r| <= |tasks|
    ensures Board.SubsequenceOf(r, tasks)
    ensures forall t :: multiset(r)[t] == if t.status != Completed then multiset(tasks)[t] else 0
  {
    if |tasks| == 0 then []
    else
      assert tasks == [tasks[0]] + tasks[1..];
      if tasks[0].status != Completed then [tasks[0]] + Incomplete(tasks[1..])
    else Incomplete(tasks[1..])
  }

  /** `Math.floor(draw * n)` for a draw of `Math.random()`, which lies in [0, 1). */
  function PickIndex(draw: real, n: nat): (k: nat)
    requires 0.0 <= draw < 1.0 && n > 0
    ensures k < n
  {
    var x := draw * n as real;
    assert 0.0 <= x < n as real;
    x.Floor
  }

  /** Each index is picked by exactly the draws of one interval of width 1/n. */
  lemma PickIndexUniform(draw: real, n: nat, k: nat)
    requires 0.0 <= draw < 1.0 && n > 0
    ensures PickIndex(draw, n) == k <==> k as real <= draw * n as real < (k + 1) as real
  {
  }

  datatype SimAction = AdvanceStatus | BotComment

  /** `Math.random() > 0.5 ? 'status' : 'comment'`. */
  function ActionOf(coin: real): (a: SimAction)
    ensures a == AdvanceStatus <==> coin > 0.5
  {
    if coin > 0.5 then AdvanceStatus else BotComment
  }

  function BotNote(stamp: Stamp): Comment
  {
    Comment(stamp.id, BotName, BotText, stamp.time)
  }

  /**
   * The simulator's change to its target: a Pending task advances to In
   * Progress when the coin says status; in every other case the bot comments.
   */
  function Simulated(t: Task, action: SimAction, stamp: Stamp): (r: Task)
    ensures r.history == t.history
    ensures r.status == InProgress && r.status != t.status ==> action == AdvanceStatus && t.status == Pending
    ensures action == AdvanceStatus && t.status == Pending ==> r == t.(status := InProgress)
    ensures !(action == AdvanceStatus && t.status == Pending) ==> r == t.(comments := t.comments + [BotNote(stamp)])
  {
    if action == AdvanceStatus && t.status == Pending then t.(status := InProgress)
    else t.(comments := t.comments + [BotNote(stamp)])
  }

  /**
   * One tick of `simulateLiveUpdate` on one workspace, with the two draws of
   * `Math.random()` given: nothing changes when every task is Completed;
   * otherwise only the tasks sharing the picked task's id change, and no
   * history entry is written.
   */
  function SimulateTick(ws: Workspace, pick: real, coin: real, stamp: Stamp): (r: Workspace)
    requires 0.0 <= pick < 1.0 && 0.0 <= coin < 1.0
    ensures |Incomplete(ws.tasks)| == 0 ==> r == ws
    ensures r == ws.(tasks := r.tasks) && |r.tasks| == |ws.tasks|
    ensures |Incomplete(ws.tasks)| > 0 ==>
      var target := Incomplete(ws.tasks)[PickIndex(pick, |Incomplete(ws.tasks)|)];
      && target in ws.tasks && target.status != Completed
      && (forall i :: 0 <= i < |ws.tasks| && ws.tasks[i].id != target.id ==> r.tasks[i] == ws.tasks[i])
      && (forall i :: 0 <= i < |ws.tasks| && ws.tasks[i].id == target.id ==>
            r.tasks[i] == Simulated(ws.tasks[i], ActionOf(coin), stamp))
    ensures forall i :: 0 <= i < |ws.tasks| ==> r.tasks[i].history == ws.tasks[i].history
  {
    var pending := Incomplete(ws.tasks);
    if |pending| == 0 then ws
    else
      var target := pending[PickIndex(pick, |pending|)];
      ws.(tasks := seq(|ws.tasks|, i requires 0 <= i < |ws.tasks| =>
        if ws.tasks[i].id == target.id then Simulated(ws.tasks[i], ActionOf(coin), stamp) else ws.tasks[i]))
  }

  /** The simulator's pass over the workspace list: it also targets the active id only. */
  function SimulateActive(wss: seq<Workspace>, activeId: string, pick: real, coin: real, stamp: Stamp): (r: seq<Workspace>)
    requires 0.0 <= pick < 1.0 && 0.0 <= coin < 1.0
    ensures |r| == |wss|
    ensures forall i :: 0 <= i < |wss| && wss[i].id != activeId ==> r[i] == wss[i]
    ensures forall i :: 0 <= i < |wss| && wss[i].id == activeId ==> r[i] == SimulateTick(wss[i], pick, coin, stamp)
  {
    seq(|wss|, i requires 0 <= i < |wss| => if wss[i].id == activeId then SimulateTick(wss[i], pick, coin, stamp) else wss[i])
  }

  // ---------------------------------------------------------------------------
  // Reminder scan

  /**
   * A task is alerted when its reminder is set and parses to a time, the
   * task is not Completed, and the reminder lies in the minute up to `now`.
   * `parse` stands for `new Date(...)`: None for text that is not a date.
   */
  predicate ReminderDue(t: Task, now: int, parse: string -> Option<int>): (b: bool)
    ensures b ==> t.status != Completed && t.reminder != ""
    ensures b ==> parse(t.reminder).Some? && 0 <= now - parse(t.reminder).value < ReminderWindow
  {
    && t.reminder != ""
    && parse(t.reminder).Some?
    && parse(t.reminder).value <= now
    && t.status != Completed
    && now - parse(t.reminder).value < ReminderWindow
  }

  /** The tasks `checkReminders` raises an alert for, in list order. */
  function DueReminders(tasks: seq<Task>, now: int, parse: string -> Option<int>): (r: seq<Task>)
    ensures forall t :: t in r <==> t in tasks && ReminderDue(t, now, parse)
    ensures |r| <= |tasks|
  {
    if |tasks| == 0 then []
    else
      var last := tasks[|tasks| - 1];
      var before := DueReminders(tasks[..|tasks| - 1], now, parse);
      assert tasks == tasks[..|tasks| - 1] + [last];
      if ReminderDue(last, now, parse) then before + [last] else before
  }

  /**
   * The window closes: a task is not alerted again once a full minute has
   * passed since a scan that alerted it. Within the minute nothing stops a
   * second alert: a reminder 10 s old is alerted, and 30 s later, by the
   * next scan, again.
   */
  lemma ReminderWindowCloses(t: Task, now: int, later: int, parse: string -> Option<int>)
    requires ReminderDue(t, now, parse)
    ensures later >= now + ReminderWindow ==> !ReminderDue(t, later, parse)
    ensures parse(t.reminder).value == now - 10000 ==> ReminderDue(t, now + 30000, parse)
  {
  }

  /** One more task scanned: it is appended exactly when its reminder is due. */
  lemma DueRemindersStep(tasks: seq<Task>, i: nat, now: int, parse: string -> Option<int>)
    requires i < |tasks|
    ensures DueReminders(tasks[..i + 1], now, parse)
         == if ReminderDue(tasks[i], now, parse) then DueReminders(tasks[..i], now, parse) + [tasks[i]]
            else DueReminders(tasks[..i], now, parse)
  {
    assert tasks[..i + 1][..i] == tasks[..i];
  }

  // ---------------------------------------------------------------------------
  // Read-side projections

  /** `tasks.map(t => t.status)`. */
  function Statuses(tasks: seq<Task>): seq<Status>
  {
    seq(|tasks|, i requires 0 <= i < |tasks| => tasks[i].status)
  }

  /**
   * `tasks.filter(t => t.status === s).length`: the number of occurrences
   * of `s` in the list of statuses.
   */
  function CountStatus(tasks: seq<Task>, s: Status): (n: nat)
    ensures n == multiset(Statuses(tasks))[s]
    ensures n <= |tasks|
    ensures n == 0 <==> forall i :: 0 <= i < |tasks| ==> tasks[i].status != s
    ensures n == |tasks| <==> forall i :: 0 <= i < |tasks| ==> tasks[i].status == s
  {
    if |tasks| == 0 then 0
    else
      assert Statuses(tasks) == [tasks[0].status] + Statuses(tasks[1..]);
      (if tasks[0].status == s then 1 else 0) + CountStatus(tasks[1..], s)
  }

  /** Counting over two lists laid end to end adds the two counts. */
  lemma CountStatusConcat(a: seq<Task>, b: seq<Task>, s: Status)
    ensures CountStatus(a + b, s) == CountStatus(a, s) + CountStatus(b, s)
  {
    assert Statuses(a + b) == Statuses(a) + Statuses(b);
  }

  /** A count depends only on which tasks are listed, not on their order. */
  lemma {:induction false} CountStatusPermutation(a: seq<Task>, b: seq<Task>, s: Status)
    requires multiset(a) == multiset(b)
    ensures CountStatus(a, s) == CountStatus(b, s)
  {
    if |a| > 0 {
      assert a[0] in multiset(b);
      var k :| 0 <= k < |b| && b[k] == a[0];
      assert multiset(a[1..]) == multiset(a) - multiset{a[0]} by {
        assert a == [a[0]] + a[1..];
      }
      CountWithout(b, k, s);
      CountStatusPermutation(a[1..], b[..k] + b[k + 1..], s);
      assert a == [a[0]] + a[1..];
      CountStatusConcat([a[0]], a[1..], s);
    }
  }

  /** Taking one task out of a list takes it out of the multiset and the count. */
  lemma CountWithout(b: seq<Task>, k: nat, s: Status)
    requires k < |b|
    ensures multiset(b[..k] + b[k + 1..]) == multiset(b) - multiset{b[k]}
    ensures CountStatus(b, s) == CountStatus(b[..k] + b[k + 1..], s) + (if b[k].status == s then 1 else 0)
  {
    assert b == b[..k] + [b[k]] + b[k + 1..];
    CountStatusConcat(b[..k] + [b[k]], b[k + 1..], s);
    CountStatusConcat(b[..k], [b[k]], s);
    CountStatusConcat(b[..k], b[k + 1..], s);
  }

  /**
   * `Math.round(part / whole * 100)`: the integer nearest to the
   * percentage, halves rounded up.
   */
  function RoundPercent(part: nat, whole: nat): (r: nat)
    requires 0 < whole && part <= whole
    ensures 2 * whole * r <= 200 * part + whole < 2 * whole * r + 2 * whole
    ensures r <= 100
  {
    RoundPercentBounds(part, whole);
    (200 * part + whole) / (2 * whole)
  }

  lemma RoundPercentBounds(part: nat, whole: nat)
    requires 0 < whole && part <= whole
    ensures var r := (200 * part + whole) / (2 * whole);
      2 * whole * r <= 200 * part + whole < 2 * whole * r + 2 * whole && r <= 100
  {
    var d, x := 2 * whole, 200 * part + whole;
    Arith.DivBounds(x, d);
    if x / d > 100 {
      assert d * 101 == 202 * whole;
      Arith.MulMonotone(d, 101, x / d);
    }
  }

  /** A whole that is entirely done is 100%, one with nothing done is 0%. */
  lemma RoundPercentExtremes(whole: nat)
    requires 0 < whole
    ensures RoundPercent(whole, whole) == 100
    ensures RoundPercent(0, whole) == 0
  {
    Arith.DivIs(201 * whole, 2 * whole, 100);
    Arith.DivIs(whole, 2 * whole, 0);
  }

  /** Overall progress; an empty list counts as one task, so it shows 0. */
  function Progress(tasks: seq<Task>): (p: nat)
    ensures p <= 100
    ensures |tasks| == 0 ==> p == 0
    ensures var done, total := multiset(Statuses(tasks))[Completed], if |tasks| == 0 then 1 else |tasks|;
      2 * total * p <= 200 * done + total < 2 * total * p + 2 * total
  {
    var total := if |tasks| == 0 then 1 else |tasks|;
    RoundPercentExtremes(total);
    RoundPercent(CountStatus(tasks, Completed), total)
  }

  /** Progress is 100 when every task is Completed, and 0 when none is. */
  lemma ProgressExtremes(tasks: seq<Task>)
    ensures |tasks| > 0 && (forall i :: 0 <= i < |tasks| ==> tasks[i].status == Completed) ==> Progress(tasks) == 100
    ensures (forall i :: 0 <= i < |tasks| ==> tasks[i].status != Completed) ==> Progress(tasks) == 0
  {
    RoundPercentExtremes(if |tasks| == 0 then 1 else |tasks|);
  }

  /** The tasks of one category, in list order. */
  function InCategory(tasks: seq<Task>, c: Category): (r: seq<Task>)
    ensures forall t :: t in r <==> t in tasks && t.category == c
    ensures |r| <= |tasks|
    ensures Board.SubsequenceOf(r, tasks)
    ensures forall t :: multiset(r)[t] == if t.category == c then multiset(tasks)[t] else 0
  {
    if |tasks| == 0 then []
    else
      assert tasks == [tasks[0]] + tasks[1..];
      if tasks[0].category == c then [tasks[0]] + InCategory(tasks[1..], c)
    else InCategory(tasks[1..], c)
  }

  /** Progress of one category card; a category without tasks shows 0. */
  function CategoryProgress(tasks: seq<Task>, c: Category): (p: nat)
    ensures p <= 100
    ensures |InCategory(tasks, c)| == 0 ==> p == 0
    ensures var ct := InCategory(tasks, c); var done := multiset(Statuses(ct))[Completed];
      |ct| > 0 ==> 2 * |ct| * p <= 200 * done + |ct| < 2 * |ct| * p + 2 * |ct|
  {
    var ct := InCategory(tasks, c);
    if |ct| == 0 then 0 else RoundPercent(CountStatus(ct, Completed), |ct|)
  }

  /** The card's label: 'Healthy' exactly at 100%, 'Migrating' below. */
  function CategoryLabel(progress: nat): (text: string)
    ensures text == "Healthy" <==> progress == 100
    ensures text == "Healthy" || text == "Migrating"
  {
    if progress == 100 then "Healthy" else "Migrating"
  }

  /**
   * A category card reads 'Healthy' exactly when it has tasks and at most
   * one in two hundred of them is not Completed (rounding makes 99.5% read
   * as 100%); in particular a fully completed category reads 'Healthy'.
   */
  lemma CategoryHealthyIff(tasks: seq<Task>, c: Category)
    ensures var ct := InCategory(tasks, c);
      CategoryLabel(CategoryProgress(tasks, c)) == "Healthy" <==>
        |ct| > 0 && 200 * CountStatus(ct, Completed) >= 199 * |ct|
  {
    var ct := InCategory(tasks, c);
    if |ct| > 0 {
      RoundsToFull(CountStatus(ct, Completed), |ct|);
    }
  }

  /** A share rounds to 100% exactly when at most one part in 200 is missing. */
  lemma RoundsToFull(k: nat, n: nat)
    requires 0 < n && k <= n
    ensures RoundPercent(k, n) == 100 <==> 200 * k >= 199 * n
  {
    if 200 * k >= 199 * n {
      Arith.DivIs(200 * k + n, 2 * n, 100);
    }
    if RoundPercent(k, n) == 100 {
      assert 2 * n * 100 <= 200 * k + n;
    }
  }

  /** The 'Blockers' figure: tasks whose status field is Blocked. */
  function BlockerCount(tasks: seq<Task>): (n: nat)
    ensures n == multiset(Statuses(tasks))[Blocked]
    ensures n <= |tasks|
  {
    CountStatus(tasks, Blocked)
  }

  /**
   * Reordering the list, by hand or by dragging a row, changes neither the
   * progress figure nor the blocker figure.
   */
  lemma ReorderKeepsFigures(a: seq<Task>, b: seq<Task>)
    requires multiset(a) == multiset(b)
    ensures Progress(a) == Progress(b) && BlockerCount(a) == BlockerCount(b)
  {
    assert |a| == |multiset(a)| == |multiset(b)| == |b|;
    CountStatusPermutation(a, b, Completed);
    CountStatusPermutation(a, b, Blocked);
  }

  lemma DragKeepsFigures(tasks: seq<Task>, from: nat, to: nat)
    requires from < |tasks| && to < |tasks|
    ensures Progress(Board.Moved(tasks, from, to)) == Progress(tasks)
    ensures BlockerCount(Board.Moved(tasks, from, to)) == BlockerCount(tasks)
  {
    Board.MovedIsReorder(tasks, from, to);
    ReorderKeepsFigures(Board.Moved(tasks, from, to), tasks);
  }

  /**
   * The blocker figure counts the status field, not dependency blocking: a
   * task waiting on a Pending task is blocked while the figure stays 0.
   */
  lemma BlockerCountIgnoresDependencies()
    ensures var a := Task("a", "A", Compute, Pending, High, "", "", [], [], [], "");
      var b := Task("b", "B", Compute, Pending, High, "", "", [], ["a"], [], "");
      Board.IsBlocked(b, [a, b]) && BlockerCount([a, b]) == 0
  {
    var a := Task("a", "A", Compute, Pending, High, "", "", [], [], [], "");
    var b := Task("b", "B", Compute, Pending, High, "", "", [], ["a"], [], "");
    assert FirstIndex([a, b], TaskId, "a") == 0;
    assert Board.BlocksOn([a, b], b.dependencies[0]);
  }
}
