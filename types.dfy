/**
 * The entities of the task board (types.ts): tasks with their comments and
 * audit history, and the workspaces that own them.
 *
 * The source types `category` and `priority` as string unions, but CSV import
 * casts whatever text a cell holds into those fields without checking it, so
 * each enumeration here has an `Other` case carrying such text. The parse
 * functions below are canonical (the name of a known value never becomes
 * `Other`), so equality of these values coincides with equality of the
 * strings the source compares.
 */
module Types {

  datatype Option<T> = None | Some(value: T)

  datatype Status = Pending | InProgress | Completed | Blocked

  datatype Priority = High | Medium | Low | OtherPriority(raw: string)

  datatype Category = Compute | Storage | Networking | Security | Cleanup | OtherCategory(raw: string)

  /** The four tracked fields an audit entry can name. */
  datatype HistoryField = StatusField | OwnerField | PriorityField | ReminderField

  datatype WorkspaceStatus = Healthy | AtRisk | Critical

  datatype Comment = Comment(id: string, author: string, text: string, timestamp: string)

  datatype HistoryEntry = HistoryEntry(
    id: string,
    field: HistoryField,
    oldValue: string,
    newValue: string,
    timestamp: string,
    author: string)

  /** `reminder` is the text of the optional reminder; "" stands for an unset one. */
  datatype Task = Task(
    id: string,
    title: string,
    category: Category,
    status: Status,
    priority: Priority,
    owner: string,
    dueDate: string,
    comments: seq<Comment>,
    dependencies: seq<string>,
    history: seq<HistoryEntry>,
    reminder: string)

  datatype Workspace = Workspace(
    id: string,
    name: string,
    status: WorkspaceStatus,
    team: seq<string>,
    tasks: seq<Task>,
    region: string)

  function TaskId(t: Task): string { t.id }

  function WorkspaceId(w: Workspace): string { w.id }

  /**
   * Where `find(x => key(x) === id)` stops: the position of the first
   * element with that key, or |s| when there is none.
   */
  function FirstIndex<T>(s: seq<T>, key: T -> string, id: string): (k: nat)
    ensures k <= |s|
    ensures forall j :: 0 <= j < k ==> key(s[j]) != id
    ensures k < |s| ==> key(s[k]) == id
  {
    if |s| == 0 then 0
    else if key(s[0]) == id then 0
    else 1 + FirstIndex(s[1..], key, id)
  }

  /** Fresh values the source draws from the clock and the random source. */
  datatype Stamp = Stamp(id: string, time: string)

  function StatusText(s: Status): string
  {
    match s
    case Pending => "Pending"
    case InProgress => "In Progress"
    case Completed => "Completed"
    case Blocked => "Blocked"
  }

  function PriorityText(p: Priority): string
  {
    match p
    case High => "High"
    case Medium => "Medium"
    case Low => "Low"
    case OtherPriority(raw) => raw
  }

  function CategoryText(c: Category): string
  {
    match c
    case Compute => "Compute"
    case Storage => "Storage"
    case Networking => "Networking"
    case Security => "Security"
    case Cleanup => "Cleanup"
    case OtherCategory(raw) => raw
  }

  /** A priority value is canonical when an `Other` never spells a known name. */
  predicate CanonicalPriority(p: Priority)
  {
    p.OtherPriority? ==> p.raw !in ["High", "Medium", "Low"]
  }

  predicate CanonicalCategory(c: Category)
  {
    c.OtherCategory? ==> c.raw !in ["Compute", "Storage", "Networking", "Security", "Cleanup"]
  }

  /** The value a priority cell or select option denotes. */
  function PriorityOf(s: string): (p: Priority)
    ensures CanonicalPriority(p)
    ensures PriorityText(p) == s
  {
    if s == "High" then High
    else if s == "Medium" then Medium
    else if s == "Low" then Low
    else OtherPriority(s)
  }

  function CategoryOf(s: string): (c: Category)
    ensures CanonicalCategory(c)
    ensures CategoryText(c) == s
  {
    if s == "Compute" then Compute
    else if s == "Storage" then Storage
    else if s == "Networking" then Networking
    else if s == "Security" then Security
    else if s == "Cleanup" then Cleanup
    else OtherCategory(s)
  }

  /** Parsing the text of a canonical priority gives it back. */
  lemma PriorityRoundTrip(p: Priority)
    requires CanonicalPriority(p)
    ensures PriorityOf(PriorityText(p)) == p
  {
  }

  lemma CategoryRoundTrip(c: Category)
    requires CanonicalCategory(c)
    ensures CategoryOf(CategoryText(c)) == c
  {
  }

  /** On canonical values, comparing priorities is comparing their text. */
  lemma PriorityTextInjective(p: Priority, q: Priority)
    requires CanonicalPriority(p) && CanonicalPriority(q)
    ensures PriorityText(p) == PriorityText(q) <==> p == q
  {
    PriorityRoundTrip(p);
    PriorityRoundTrip(q);
  }

  lemma StatusTextInjective(s: Status, t: Status)
    ensures StatusText(s) == StatusText(t) <==> s == t
  {
  }
}
