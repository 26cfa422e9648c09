# TaskMan task board, modelled in Dafny

TaskMan is a browser dashboard that tracks the tasks of a cloud decommissioning
project. It keeps several workspaces. Each workspace has a team and a task list.
Each task has a status, a priority, an owner, comments, dependencies on other
tasks, an optional reminder and an audit history of its tracked fields.

This project models the in-memory core of that dashboard:

- `types.dfy` (`Types`): the entities of `types.ts` as datatypes.
- `engine.dfy` (`Engine`): the state transforms behind every handler of
  `App.tsx`, as pure functions over an edit value. Also the simulated live
  update, the reminder scan and the progress, category and blocker figures.
- `app.dfy` (`Dashboard`): the dashboard component as a class `App`. It holds
  the workspaces, the active id, the last-update text and the new-member field.
  Its handler methods overwrite the workspace list with the engine's transforms.
- `board.dfy` (`Board`): the pure logic of the board component:
  - lookup by id and dependency blocking;
  - the priority filter and dependency toggling;
  - the candidate list;
  - the remove-then-insert move.
- `tasklist.dfy` (`TaskListView`): the board component as a class `TaskList`.
  It holds the filter, the expanded row and tab, the comment input and the
  dragged index. It also has the in-place array move and the handlers that call
  the dashboard.
- `csv.dfy` (`CsvImport`): the CSV import of the board's upload callback. It
  includes the header-by-header loop that fills a task.
- `text.dfy` (`Text`): `split`, `trim` and `toLowerCase` as the import uses them.
- `countdown.dfy` (`Countdown`): the deadline countdown. It covers the
  day/hour/minute/second split, the state kept while the deadline is past, and
  the progress-bar clamp.
- `arith.dfy` (`Arith`): small nonlinear-arithmetic facts used by the proofs.

Fresh ids, clock readings and the draws of `Math.random()` are parameters.
A `Stamp` carries the id and the time text a handler would draw. The simulator
takes its two random draws as reals in [0, 1). The reminder scan takes the
current time in milliseconds and a date parser.

Where the code and its intended design part ways, the model follows the code:

- The dashboard's toggle handler does not refuse a blocked task. Only the
  board's checkbox does that (`TaskListView.HandlerCompletesBlockedTask`).
- `toggleDependency` does not refuse a self-dependency. Only the candidate
  list, which excludes the task itself, keeps one from being offered.

## Model

| member | source | states |
|---|---|---|
| Types.PriorityOf | types.ts:25 | parsing a priority text gives a canonical value whose text is that string |
| Types.CategoryOf | types.ts:23 | parsing a category text gives a canonical value whose text is that string |
| Types.PriorityRoundTrip | types.ts:25 | a canonical priority parses back from its text |
| Types.CategoryRoundTrip | types.ts:23 | a canonical category parses back from its text |
| Types.PriorityTextInjective | types.ts:25 | on canonical priorities, comparing texts as the filter does is comparing values |
| Types.StatusTextInjective | types.ts:24 | the four status texts are distinct, so the audit trail identifies the status |
| Engine.ApplyToTask | App.tsx:106-197 | toggle sends Completed to Pending and any other status to Completed. Owner, priority and reminder replace their field. Each of those four appends exactly one entry with the old and new value, "None" for an unset reminder. A comment is appended at the end. Dependencies are replaced with no entry. Nothing else changes and the id is kept |
| Engine.ToggleTwice | App.tsx:111-115 | two toggles bring a Completed task back to Completed and any other task to Pending, change only status and history, and record both flips with their old and new values |
| Engine.EditTasks | App.tsx:109-119 | only tasks with the given id are edited; the others and the length are kept |
| Engine.EditUnknownTask | App.tsx:109-119 | an unknown task id leaves the task list unchanged |
| Engine.ToggleUnblocksDependent | App.tsx:106-121 | when a task waits only on a task that is not Completed (the first with its id), the waiting task is blocked; toggling the awaited task completes it, leaves the waiting task unchanged and frees it |
| Engine.ApplyToWorkspace | App.tsx:123-217 | task handlers change only the tasks: upload gives old tasks followed by new ones, and reorder gives the new order. Status and team handlers change only their field. Removing a member drops every equal entry and keeps every other entry, as often as it occurred and in order; owners are left alone. Id, name and region never change |
| Engine.UpdateActive | App.tsx:100-104 | only workspaces whose id is the active id are rebuilt |
| Engine.UpdateUnknownActive | App.tsx:100-104 | an active id naming no workspace leaves every workspace unchanged |
| Engine.HistoryOnlyGrows | App.tsx:106-197 | through any task handler, every task keeps its id and its history prefix. It gains one entry only for an audited edit of a matching task |
| Engine.Incomplete | App.tsx:61 | the simulator's candidates are the tasks not Completed, in list order, each as often as it occurs in the list |
| Engine.PickIndex | App.tsx:64 | the floor of a draw in [0,1) times n is a valid index |
| Engine.PickIndexUniform | App.tsx:64 | index k is picked exactly by draws in [k/n, (k+1)/n) |
| Engine.ActionOf | App.tsx:67 | the simulator advances the status exactly when the coin is above 0.5, and comments otherwise |
| Engine.Simulated | App.tsx:66-77 | the target goes to In Progress only when Pending and the coin says status. Otherwise one bot comment is appended. The history is never touched |
| Engine.SimulateTick | App.tsx:58-82 | no change when every task is Completed. Otherwise only tasks sharing the picked non-Completed target's id change, as Simulated says, and no history entry is written |
| Engine.SimulateActive | App.tsx:58-59 | the simulator also rebuilds only workspaces with the active id |
| Engine.DueReminders | App.tsx:36-47 | a task is alerted iff its reminder is set and parses, lies at or before now and within 60000 ms of now, and the task is not Completed |
| Engine.ReminderDue | App.tsx:37-42 | an alerted task is not Completed and has a set reminder that parses to a time at most 60000 ms before now |
| Engine.CountStatus | App.tsx:233 | the count is the number of occurrences of the status in the list of statuses; hence at most the length, 0 iff no task has it, and the length iff all have it |
| Engine.CountStatusConcat | App.tsx:233 | the count over two lists laid end to end is the sum of their counts |
| Engine.CountStatusPermutation | App.tsx:233 | two lists holding the same tasks, in any order, have the same count for every status |
| Engine.RoundPercent | App.tsx:235 | the result is the nearest integer to 100·part/whole with halves rounded up, and at most 100 |
| Engine.RoundPercentExtremes | App.tsx:235 | all done rounds to 100 and none done to 0 |
| Engine.Progress | App.tsx:233-235 | progress is the nearest whole number (halves up) to 100·completed/total, where completed is the number of Completed statuses and total the length or 1 for an empty list; it lies in 0..100 and is 0 for an empty list |
| Engine.ProgressExtremes | App.tsx:233-235 | progress is 100 when every task is Completed and 0 when none is |
| Engine.InCategory | App.tsx:356 | the tasks of the category, in list order, each as often as it occurs in the list |
| Engine.CategoryProgress | App.tsx:356-358 | a category with tasks shows the nearest whole number (halves up) to 100·completed/size, counted over exactly its tasks; one without tasks shows 0; always in 0..100 |
| Engine.CategoryHealthyIff | App.tsx:358-364 | the card reads Healthy iff the category has tasks and at least 199 in 200 of them are Completed |
| Engine.CategoryLabel | App.tsx:364 | the label is Healthy exactly at 100% and Migrating otherwise |
| Engine.RoundsToFull | App.tsx:235 | a share rounds to 100 iff 200·done ≥ 199·total |
| Engine.BlockerCount | App.tsx:281 | the Blockers figure is the number of tasks whose status is Blocked, so at most the number of tasks |
| Engine.ReorderKeepsFigures | App.tsx:140-142 | a reorder that keeps the same tasks changes neither the progress figure nor the blocker figure |
| Engine.DragKeepsFigures | components/TaskList.tsx:153-158 | the list a drag hands to the reorder handler has the same progress and blocker figures as before |
| Engine.BlockerCountIgnoresDependencies | App.tsx:281 | a task blocked by a dependency does not count as a blocker |
| Dashboard.ActiveOf | App.tsx:29 | when some workspace has the active id, the shown one is the first with that id, as find returns; otherwise it is the first workspace |
| Dashboard.ActiveSeesEdit | App.tsx:29 | when the active id exists, what is shown after a handler is that handler's edit of what was shown before |
| Dashboard.DanglingActiveIsReadOnly | App.tsx:29 | with a dangling active id, reads fall back to the first workspace and every handler changes nothing |
| Dashboard.NewWorkspace | App.tsx:219-227 | a new workspace has the given fields, the one member System Admin and no tasks |
| Dashboard.App.constructor | App.tsx:11-26 | the dashboard starts with the seed workspace ws-1 active, "Just now" and an empty member field |
| Dashboard.App.UpdateActiveWorkspace | App.tsx:100-104 | the new workspace list is UpdateActive of the old one and nothing else changes |
| Dashboard.App.ToggleTask | App.tsx:106-121 | the toggle edit applied through the active workspace |
| Dashboard.App.UploadTasks | App.tsx:123-125 | the upload edit applied through the active workspace |
| Dashboard.App.AddComment | App.tsx:127-138 | a Current User comment with the given id and time is appended to matching tasks |
| Dashboard.App.ReorderTasks | App.tsx:140-142 | the task list of the active workspace is replaced |
| Dashboard.App.UpdateDependencies | App.tsx:144-149 | the dependency list of matching tasks is replaced |
| Dashboard.App.UpdateTaskOwner | App.tsx:151-165 | the owner edit applied through the active workspace |
| Dashboard.App.UpdateTaskPriority | App.tsx:167-181 | the priority edit applied through the active workspace |
| Dashboard.App.SetReminder | App.tsx:183-197 | the reminder edit applied through the active workspace |
| Dashboard.App.UpdateWorkspaceStatus | App.tsx:199-201 | the active workspace's status is replaced |
| Dashboard.App.SetNewMemberName | App.tsx:26 | the member field is overwritten |
| Dashboard.App.AddTeamMember | App.tsx:203-210 | a name that trims to empty changes nothing, the field included. Otherwise the trimmed name is appended to the active team and the field is cleared |
| Dashboard.App.RemoveTeamMember | App.tsx:212-217 | every equal entry leaves the active team |
| Dashboard.App.CreateWorkspace | App.tsx:219-231 | the new workspace is appended and becomes active |
| Dashboard.App.SwitchWorkspace | App.tsx:422 | only the active id changes |
| Dashboard.App.SimulateLiveUpdate | App.tsx:55-86 | one tick: the simulator's change to the active workspace, and the time of the update |
| Dashboard.App.CheckReminders | App.tsx:34-48 | returns exactly DueReminders of the shown tasks, in order, and changes nothing |
| Dashboard.ScanReminders | App.tsx:36-46 | the `forEach` loop with its nested checks collects exactly DueReminders of the list, in list order |
| Engine.ReminderWindowCloses | App.tsx:40-42 | a task alerted at one scan is not alerted a minute or more later, but a 10 s old reminder is alerted again by the scan 30 s later, since nothing marks it as fired |
| Engine.DueRemindersStep | App.tsx:36-46 | scanning one more task appends it exactly when its reminder is due |
| Dashboard.App.ProgressPercent | App.tsx:233-235 | the shown progress is the nearest whole number (halves up) to 100·completed/total over the shown list, an empty list counting as one task, and lies in 0..100 |
| Dashboard.App.Blockers | App.tsx:281 | the shown blocker figure is the number of shown tasks whose status is Blocked |
| Dashboard.SeedBlocking | constants.ts:8-9 | in the seed list task 3 is blocked by task 2 and task 1 is free |
| Dashboard.SeedProgress | constants.ts:6-13 | one of the six seed tasks is Completed, so the dashboard shows 17% |
| Dashboard.SeedBlockers | constants.ts:6-13 | the seed dashboard shows one blocker |
| Types.FirstIndex | components/TaskList.tsx:89 | where `find` by id stops: every earlier element has another key, and the position is the first match or the length when none matches; the same search backs the active-workspace lookup of App.tsx:29 |
| Board.FindTask | components/TaskList.tsx:89 | find yields nothing iff no task has the id, and otherwise the first task of the list with that id |
| Board.BlocksOn | components/TaskList.tsx:89-90 | a dependency id blocks iff the first task carrying it is not Completed; an id no task carries does not block |
| Board.IsBlocked | components/TaskList.tsx:87-92 | a blocked task has a dependency naming a listed task that is not Completed |
| Board.BlockedIff | components/TaskList.tsx:87-92 | with unique ids, a task is blocked iff a dependency names a listed task that is not Completed |
| Board.SingleDependency | components/TaskList.tsx:87-92 | a task whose only dependency is the first task with that id is blocked iff that task is not Completed |
| Board.DanglingNeverBlocks | components/TaskList.tsx:87-92 | dependency ids no task carries never block |
| Board.CompletedDependenciesUnblock | components/TaskList.tsx:87-92 | a task whose listed dependencies are all Completed is not blocked |
| Board.WithPriority | components/TaskList.tsx:96 | exactly the tasks of that priority, as a subsequence of the list |
| Board.Filtered | components/TaskList.tsx:94-96 | 'All' shows the whole list. A priority shows exactly its tasks, in list order, each as often as in the list |
| Board.Without | components/TaskList.tsx:140 | every occurrence of the id is dropped and every other id keeps its order and its number of occurrences |
| Board.WithoutAbsent | components/TaskList.tsx:140 | dropping an absent id changes nothing |
| Board.WithoutAppended | components/TaskList.tsx:139-141 | dropping a just-appended absent id restores the list |
| Board.ToggledDeps | components/TaskList.tsx:139-141 | a present id is removed everywhere while the other ids keep their order and number of occurrences; an absent id is appended at the end |
| Board.ToggleTwiceRestores | components/TaskList.tsx:139-141 | toggling an absent id twice restores the original list |
| Board.ToggleDependency | components/TaskList.tsx:136-143 | an unknown task yields no update. Otherwise the update is the toggled dependency list of the first task with that id |
| Board.Candidates | components/TaskList.tsx:472 | the offered candidates are exactly the other tasks, in order |
| Board.CandidateToggleKeepsNoSelf | components/TaskList.tsx:472 | toggling an offered candidate never makes a task depend on itself |
| Board.RemoveAt | components/TaskList.tsx:155 | splice(i, 1) drops position i and shifts the rest down |
| Board.InsertAt | components/TaskList.tsx:156 | splice(i, 0, x) puts x at i and shifts the rest up |
| Board.RemoveInserted | components/TaskList.tsx:155-156 | removing what was just inserted restores the list |
| Board.InsertCounts | components/TaskList.tsx:156 | inserting adds exactly one occurrence of the item |
| Board.RemoveCounts | components/TaskList.tsx:155 | removing takes away exactly one occurrence of the item |
| Board.Moved | components/TaskList.tsx:153-156 | the moved list has the same length and holds the dragged item at the target |
| Board.MovedIsReorder | components/TaskList.tsx:153-156 | a move keeps the length and is a permutation. The dragged item sits at the target, and the other items keep their relative order |
| Board.MovedAt | components/TaskList.tsx:153-156 | after a move the dragged item sits at the target. The items between the two positions shift one place towards the old position, and every other item stays |
| Board.MovedInPlace | components/TaskList.tsx:152-156 | moving onto the own index changes nothing |
| TaskListView.ShiftDown | components/TaskList.tsx:155 | the items after the removed position each move one place down |
| TaskListView.ShiftUp | components/TaskList.tsx:156 | the items from the insertion position each move one place up |
| TaskListView.MoveItem | components/TaskList.tsx:153-156 | the in-place shift leaves the array holding the moved list |
| TaskListView.ToggleExpand | components/TaskList.tsx:163-170 | clicking the expanded row collapses it. Any other row is expanded on the comments tab |
| TaskListView.ToggleExpandTwice | components/TaskList.tsx:163-170 | clicking a row twice from collapsed collapses again, and from the row itself re-expands it on comments |
| TaskListView.TaskList.constructor | components/TaskList.tsx:30-35 | the board starts with filter All, nothing expanded, the comments tab, an empty input and nothing dragged |
| TaskListView.TaskList.Rows | components/TaskList.tsx:94-96 | the shown rows are the whole list under 'All'; under a priority, exactly the tasks of that priority, in list order and with their multiplicity |
| TaskListView.TaskList.SetPriorityFilter | components/TaskList.tsx:190 | only the filter changes |
| TaskListView.TaskList.ClickToggle | components/TaskList.tsx:255-256 | a blocked task's checkbox changes nothing. Otherwise the dashboard's toggle runs |
| TaskListView.TaskList.ToggleDependency | components/TaskList.tsx:136-143 | an unknown task changes nothing. Otherwise the toggled list replaces the task's dependencies |
| TaskListView.TaskList.DragStart | components/TaskList.tsx:145-148 | under the All filter the dragged index is set; under a priority filter the rows are not draggable (line 230) and nothing changes |
| TaskListView.TaskList.DragOver | components/TaskList.tsx:150-159 | no-op without a dragged row or over the dragged row. Otherwise the dashboard receives the moved list and the target becomes the dragged index |
| TaskListView.TaskList.DragEnd | components/TaskList.tsx:161 | the dragged index is cleared |
| TaskListView.TaskList.ClickExpand | components/TaskList.tsx:163-170 | the expansion state follows ToggleExpand |
| TaskListView.TaskList.SelectTab | components/TaskList.tsx:358 | only the tab changes |
| TaskListView.TaskList.SetCommentInput | components/TaskList.tsx:407 | only the comment input changes |
| TaskListView.TaskList.SubmitComment | components/TaskList.tsx:408-413 | the input, even empty, is posted as a comment and the input is cleared |
| TaskListView.TaskList.UploadFile | components/TaskList.tsx:103-130 | a text of fewer than two lines changes nothing. Otherwise the imported tasks, filled from the active team, are appended |
| TaskListView.HandlerCompletesBlockedTask | App.tsx:106-121 | the toggle handler completes a blocked task, since only the checkbox guards it |
| CsvImport.ColumnOf | components/TaskList.tsx:121-122 | exactly the five names title, category, priority, owner and duedate are recognised, each naming its own column (duedate the due-date field) |
| CsvImport.Headers | components/TaskList.tsx:108 | one header per comma-separated piece of the first line: the lower-cased trim of that piece, so with no comma and no capital, and empty iff its piece is all white space |
| CsvImport.Values | components/TaskList.tsx:111 | one cell per comma-separated piece of a data line: the trim of that piece, so with no comma and no white space at either end, and empty iff its piece is all white space |
| CsvImport.Cell | components/TaskList.tsx:123 | a present non-empty cell is copied; an empty or missing cell becomes the fallback; the result is never empty |
| CsvImport.Fallback | components/TaskList.tsx:123 | the fallback is the first team member when there is one and it is non-empty, and 'Unknown' otherwise |
| CsvImport.LastHeader | components/TaskList.tsx:120-125 | the last header naming a column, or -1 when none does |
| CsvImport.CellsMeaning | components/TaskList.tsx:120-125 | a field is filled iff some header names its column. It then holds the cell under the last such header, or the fallback when that cell is empty or missing |
| CsvImport.FillCells | components/TaskList.tsx:120-125 | the header loop fills the fields as Cells describes |
| CsvImport.RowTaskFields | components/TaskList.tsx:111-127 | each row yields a Pending task with the given id and no comments, dependencies, history or reminder. Its five fields come from the filled cells |
| CsvImport.Decimal | components/TaskList.tsx:113 | the decimal text of the row index, with its last digit |
| CsvImport.DecimalInjective | components/TaskList.tsx:113 | different indices are written differently |
| CsvImport.UploadIdsDistinct | components/TaskList.tsx:113 | the tasks of one upload get pairwise distinct ids |
| CsvImport.NonBlank | components/TaskList.tsx:110 | the data lines that do not trim to empty, in file order, each as often as it occurs |
| CsvImport.MapIndexedAt | components/TaskList.tsx:110 | the element-and-index `map` puts f of the k-th element and k at position k |
| CsvImport.RowTasks | components/TaskList.tsx:110-128 | one task per data line |
| CsvImport.RowTasksAt | components/TaskList.tsx:110-128 | the k-th task is built from the k-th line with id uploaded-now-k |
| CsvImport.ImportTasks | components/TaskList.tsx:105-110 | fewer than two lines yield nothing. Otherwise there is one task per non-blank data line, and NonBlank fixes those lines in file order |
| CsvImport.ImportedTask | components/TaskList.tsx:105-128 | the i-th imported task is built from the i-th non-blank data line in file order. It is Pending, with empty comments, dependencies and history and the upload id of its position |
| CsvImport.BuildTask | components/TaskList.tsx:111-127 | the field-filling loop builds the row's task |
| CsvImport.BuildRows | components/TaskList.tsx:110-128 | the loop over data lines builds the tasks in order |
| CsvImport.ParseFile | components/TaskList.tsx:104-128 | the callback's tasks are ImportTasks of the text |
| Text.Split | components/TaskList.tsx:105 | split yields at least one piece, no piece holds the separator, and joining gives back the text |
| Text.SplitJoin | components/TaskList.tsx:105 | splitting a join of separator-free pieces gives back the pieces |
| Text.Trim | components/TaskList.tsx:108 | trim removes only white space at both ends, keeps none there, and is empty iff the text is all white space |
| Text.TrimIdempotent | components/TaskList.tsx:110-111 | trimming twice is trimming once |
| Text.Lower | components/TaskList.tsx:108 | every ASCII capital is lower-cased and the length is kept |
| Text.LowerIdempotent | components/TaskList.tsx:108 | the result has no capitals and lower-casing again changes nothing |
| Countdown.Split | components/Countdown.tsx:17-22 | for a positive difference, hours are in 0..23 and minutes and seconds in 0..59. Days are the difference div 86400000, and days·86400+hours·3600+minutes·60+seconds is the difference div 1000 |
| Countdown.FloorQuotient | components/Countdown.tsx:18 | the floor of a quotient of whole milliseconds is integer division |
| Countdown.FloorOfRem | components/Countdown.tsx:19-21 | the floor of a JavaScript remainder of a quotient is the integer remainder |
| Countdown.SplitIsMixedRadix | components/Countdown.tsx:18-21 | the four figures read back the whole seconds left |
| Countdown.SplitBySecond | components/Countdown.tsx:18-21 | differences in the same whole second show the same figures |
| Countdown.BarWidth | components/Countdown.tsx:48 | the bar width is clamped to 0..100. It is full once the deadline has passed, empty 30 days or more before it, and in between the share of the 30 days already elapsed, times 100 |
| Countdown.BarWidthMonotone | components/Countdown.tsx:48 | the bar never shrinks as the deadline comes closer |
| Countdown.Clock.constructor | components/Countdown.tsx:6-11 | the figures start at zero |
| Countdown.Clock.Tick | components/Countdown.tsx:14-24 | a positive difference overwrites the figures with its split. Otherwise they keep their previous value |
| Countdown.Clock.Width | components/Countdown.tsx:48 | the shown width is the bar width for the time left until the target, so within 0..100 and full from the target on |

## Left out

- The chat assistant, the header's menus and all rendering (JSX, CSS classes, status and priority styles, the reversed history display, the `> 80` badge colour) are not modelled. They hold no state transitions of the board.
- `FileReader`, the file input, `alert`, `setInterval`/`setTimeout`, the 1200 ms delay and the `isSyncing` flag are left out. Each timer callback is one atomic step, so the interleaving of callbacks with user edits is not modelled.
- `Date.now()`, `toLocaleString` and `Math.random()` are parameters. Ids and timestamps are given strings (`Stamp`), and the simulator's two draws are given reals in [0, 1).
- Dashboard.App.CheckReminders: `new Date(reminder)` is a given parser from text to milliseconds, where `None` stands for an invalid date (every comparison with NaN is false).
- Engine.ApplyToTask: one handler call uses one `Stamp` for every task with the given id. The source calls `createHistoryEntry` once per matching task, so tasks that share an id get different entry ids and times there.
- Engine.SimulateTick: draws one coin and one `Stamp` for all tasks that share the target's id. The source draws a coin and calls `Date.now()` for the bot comment's id once per matching task, which differs only when ids repeat.
- Engine.RoundPercent: uses exact rational rounding of part/whole·100, halves up. The source's floating-point product can differ at an exact half.
- CsvImport.RowTaskFields: a recognised column that no header names leaves the source's field `undefined`. The model reads it as the empty string, and casts an unrecognised category or priority text into the `Other` case.
- Board.WithPriority: compares `Priority` values, so a non-canonical `OtherPriority("High")` is not `High`. The source compares strings, but its filter menu and priority menu only offer the three canonical names, which parse to the named cases.
- Text.Lower: lower-cases ASCII letters only. That is exact for the five header names, but not for all Unicode text.
- TaskListView.TaskList.DragOver: requires the dragged index to be inside the list. The source would splice an `undefined` item from a stale index.
- Countdown.Clock.Tick: the deadline is a constructor argument in milliseconds. The source parses a local-time date string, whose value depends on the time zone.
- The unused `DecommissionStatus` enumeration and `ViewType` navigation are not part of this model.
