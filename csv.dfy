/**
 * CSV import (the `reader.onload` callback of `handleFileUpload` in
 * components/TaskList.tsx): the first line names the columns, every
 * non-blank further line becomes one new Pending task, and the five
 * recognised columns are copied into it, an empty or missing cell falling
 * back to the first team member, or to 'Unknown' when there is none.
 */
module CsvImport {
  import opened Types
  import Text
  import Board

  /** The recognised columns; `duedate` fills the `dueDate` field. */
  datatype Column = TitleCol | CategoryCol | PriorityCol | OwnerCol | DueDateCol

  /** The column a trimmed, lower-cased header names, if it is recognised. */
  function ColumnOf(header: string): (c: Option<Column>)
    ensures c.Some? <==> header in ["title", "category", "priority", "owner", "duedate"]
    ensures c == Some(TitleCol) <==> header == "title"
    ensures c == Some(CategoryCol) <==> header == "category"
    ensures c == Some(PriorityCol) <==> header == "priority"
    ensures c == Some(OwnerCol) <==> header == "owner"
    ensures c == Some(DueDateCol) <==> header == "duedate"
  {
    if header == "title" then Some(TitleCol)
    else if header == "category" then Some(CategoryCol)
    else if header == "priority" then Some(PriorityCol)
    else if header == "owner" then Some(OwnerCol)
    else if header == "duedate" then Some(DueDateCol)
    else None
  }

  /**
   * `line.split(',').map(h => h.trim().toLowerCase())`: one header per
   * comma-separated piece, holding no comma and no capital, and empty
   * exactly when its piece is all white space.
   */
  function Headers(line: string): (r: seq<string>)
    ensures |r| == |Text.Split(line, ',')|
    ensures forall i :: 0 <= i < |r| ==> r[i] == Text.Lower(Text.Trim(Text.Split(line, ',')[i]))
    ensures forall i :: 0 <= i < |r| ==> ',' !in r[i]
    ensures forall i, k :: 0 <= i < |r| && 0 <= k < |r[i]| ==> !('A' <= r[i][k] <= 'Z')
    ensures forall i :: 0 <= i < |r| ==> (r[i] == "" <==> Text.AllSpace(Text.Split(line, ',')[i]))
  {
    var pieces := Text.Split(line, ',');
    CleanHeaders(pieces);
    seq(|pieces|, i requires 0 <= i < |pieces| => Text.Lower(Text.Trim(pieces[i])))
  }

  /**
   * `line.split(',').map(v => v.trim())`: one cell per comma-separated
   * piece, holding no comma and no white space at either end, and empty
   * exactly when its piece is all white space.
   */
  function Values(line: string): (r: seq<string>)
    ensures |r| == |Text.Split(line, ',')|
    ensures forall i :: 0 <= i < |r| ==> r[i] == Text.Trim(Text.Split(line, ',')[i])
    ensures forall i :: 0 <= i < |r| ==> ',' !in r[i]
    ensures forall i :: 0 <= i < |r| ==> r[i] == "" || (!Text.IsSpace(r[i][0]) && !Text.IsSpace(r[i][|r[i]| - 1]))
    ensures forall i :: 0 <= i < |r| ==> (r[i] == "" <==> Text.AllSpace(Text.Split(line, ',')[i]))
  {
    var pieces := Text.Split(line, ',');
    CleanValues(pieces);
    seq(|pieces|, i requires 0 <= i < |pieces| => Text.Trim(pieces[i]))
  }

  /** Trimming cannot bring in a character the text does not hold. */
  lemma TrimKeepsOut(piece: string, c: char)
    requires c !in piece
    ensures c !in Text.Trim(piece)
  {
    var t := Text.Trim(piece);
    var i := Text.Leading(piece);
    forall k | 0 <= k < |t|
      ensures t[k] != c
    {
      assert t[k] == piece[i + k];
    }
  }

  /** A piece of the header line, trimmed and lower-cased. */
  lemma CleanHeader(piece: string)
    requires ',' !in piece
    ensures var h := Text.Lower(Text.Trim(piece));
      && ',' !in h
      && (forall k :: 0 <= k < |h| ==> !('A' <= h[k] <= 'Z'))
      && (h == "" <==> Text.AllSpace(piece))
  {
    var t := Text.Trim(piece);
    TrimKeepsOut(piece, ',');
    Text.LowerIdempotent(t);
    var h := Text.Lower(t);
    forall k | 0 <= k < |h|
      ensures h[k] != ','
    {
      assert h[k] == Text.LowerChar(t[k]);
    }
  }

  lemma CleanHeaders(pieces: seq<string>)
    requires forall i :: 0 <= i < |pieces| ==> ',' !in pieces[i]
    ensures forall i :: 0 <= i < |pieces| ==>
      var h := Text.Lower(Text.Trim(pieces[i]));
      && ',' !in h
      && (forall k :: 0 <= k < |h| ==> !('A' <= h[k] <= 'Z'))
      && (h == "" <==> Text.AllSpace(pieces[i]))
  {
    forall i | 0 <= i < |pieces|
      ensures var h := Text.Lower(Text.Trim(pieces[i]));
        && ',' !in h
        && (forall k :: 0 <= k < |h| ==> !('A' <= h[k] <= 'Z'))
        && (h == "" <==> Text.AllSpace(pieces[i]))
    {
      CleanHeader(pieces[i]);
    }
  }

  lemma CleanValues(pieces: seq<string>)
    requires forall i :: 0 <= i < |pieces| ==> ',' !in pieces[i]
    ensures forall i :: 0 <= i < |pieces| ==> ',' !in Text.Trim(pieces[i])
  {
    forall i | 0 <= i < |pieces|
      ensures ',' !in Text.Trim(pieces[i])
    {
      TrimKeepsOut(pieces[i], ',');
    }
  }

  /** `team[0] || 'Unknown'`. */
  function Fallback(team: seq<string>): (r: string)
    ensures r != ""
    ensures |team| > 0 && team[0] != "" ==> r == team[0]
    ensures |team| == 0 || team[0] == "" ==> r == "Unknown"
  {
    if |team| > 0 && team[0] != "" then team[0] else "Unknown"
  }

  /** `values[i] || (team[0] || 'Unknown')`: the cell, unless it is empty or missing. */
  function Cell(values: seq<string>, i: nat, team: seq<string>): (r: string)
    ensures r != ""
    ensures i < |values| && values[i] != "" ==> r == values[i]
    ensures i >= |values| || values[i] == "" ==> r == Fallback(team)
  {
    if i < |values| && values[i] != "" then values[i] else Fallback(team)
  }

  /** The fields filled after the first `n` headers have been visited. */
  function Cells(headers: seq<string>, values: seq<string>, team: seq<string>, n: nat): map<Column, string>
    requires n <= |headers|
  {
    if n == 0 then map[]
    else
      var before := Cells(headers, values, team, n - 1);
      match ColumnOf(headers[n - 1])
      case Some(c) => before[c := Cell(values, n - 1, team)]
      case None => before
  }

  /** The last of the first `n` headers naming column `c`, or -1. */
  function LastHeader(headers: seq<string>, c: Column, n: nat): (k: int)
    requires n <= |headers|
    ensures -1 <= k < n
    ensures k >= 0 ==> ColumnOf(headers[k]) == Some(c)
    ensures forall j :: k < j < n ==> ColumnOf(headers[j]) != Some(c)
  {
    if n == 0 then -1
    else if ColumnOf(headers[n - 1]) == Some(c) then n - 1
    else LastHeader(headers, c, n - 1)
  }

  /**
   * A field is filled exactly when some header names its column, and then
   * it holds the cell under the last such header (or the fallback).
   */
  lemma {:induction false} CellsMeaning(headers: seq<string>, values: seq<string>, team: seq<string>, n: nat, c: Column)
    requires n <= |headers|
    ensures c in Cells(headers, values, team, n) <==> LastHeader(headers, c, n) >= 0
    ensures c in Cells(headers, values, team, n) ==>
      Cells(headers, values, team, n)[c] == Cell(values, LastHeader(headers, c, n), team)
  {
    if n > 0 {
      CellsMeaning(headers, values, team, n - 1, c);
    }
  }

  /**
   * The `headers.forEach` loop that fills the task object field by field,
   * visiting the headers left to right.
   */
  method FillCells(headers: seq<string>, values: seq<string>, team: seq<string>) returns (cells: map<Column, string>)
    ensures cells == Cells(headers, values, team, |headers|)
  {
    cells := map[];
    var i := 0;
    while i < |headers|
      invariant 0 <= i <= |headers|
      invariant cells == Cells(headers, values, team, i)
    {
      var column := ColumnOf(headers[i]);
      if column.Some? {
        var v := if i < |values| && values[i] != "" then values[i] else Fallback(team);
        cells := cells[column.value := v];
      }
      i := i + 1;
    }
  }

  /**
   * A field no header names stays unset in the source (`undefined`); the
   * model reads it as the empty string.
   */
  function Field(cells: map<Column, string>, c: Column): string
  {
    if c in cells then cells[c] else ""
  }

  /** The task built from one data line. */
  function RowTask(headers: seq<string>, line: string, team: seq<string>, id: string): Task
  {
    var cells := Cells(headers, Values(line), team, |headers|);
    TaskOfCells(id, cells)
  }

  /** The task object once its fields are filled: a Pending task with nothing attached. */
  function TaskOfCells(id: string, cells: map<Column, string>): Task
  {
    Task(id, Field(cells, TitleCol), CategoryOf(Field(cells, CategoryCol)), Pending,
         PriorityOf(Field(cells, PriorityCol)), Field(cells, OwnerCol), Field(cells, DueDateCol),
         [], [], [], "")
  }

  /**
   * Each data line yields a Pending task with the given id and no comments,
   * dependencies, history or reminder, whose five fields are the filled
   * cells of their columns.
   */
  lemma RowTaskFields(headers: seq<string>, line: string, team: seq<string>, id: string)
    ensures var t := RowTask(headers, line, team, id);
      && t.id == id && t.status == Pending
      && t.comments == [] && t.dependencies == [] && t.history == [] && t.reminder == ""
      && var cells := Cells(headers, Values(line), team, |headers|);
      && t.title == Field(cells, TitleCol)
      && CategoryText(t.category) == Field(cells, CategoryCol)
      && PriorityText(t.priority) == Field(cells, PriorityCol)
      && t.owner == Field(cells, OwnerCol)
      && t.dueDate == Field(cells, DueDateCol)
  {
  }

  /** Decimal digits of `n`, as `${index}` writes them. */
  function Decimal(n: nat): (s: string)
    ensures |s| >= 1
    ensures n < 10 <==> |s| == 1
    ensures s[|s| - 1] == ('0' as int + n % 10) as char
  {
    if n < 10 then [('0' as int + n) as char]
    else Decimal(n / 10) + [('0' as int + n % 10) as char]
  }

  /** Different numbers are written differently. */
  lemma {:induction false} DecimalInjective(a: nat, b: nat)
    requires Decimal(a) == Decimal(b)
    ensures a == b
  {
    if a >= 10 && b >= 10 {
      var da, db := Decimal(a), Decimal(b);
      assert Decimal(a / 10) == da[..|da| - 1];
      assert Decimal(b / 10) == db[..|db| - 1];
      DecimalInjective(a / 10, b / 10);
    }
  }

  /** `uploaded-${now}-${index}`. */
  function UploadId(now: string, index: nat): string
  {
    "uploaded-" + now + "-" + Decimal(index)
  }

  /** The ids of one upload are pairwise distinct. */
  lemma UploadIdsDistinct(now: string, i: nat, j: nat)
    requires i != j
    ensures UploadId(now, i) != UploadId(now, j)
  {
    var p := "uploaded-" + now + "-";
    if UploadId(now, i) == UploadId(now, j) {
      assert Decimal(i) == UploadId(now, i)[|p|..];
      assert Decimal(j) == UploadId(now, j)[|p|..];
      DecimalInjective(i, j);
    }
  }

  /** The data lines that are not blank, in order. */
  function NonBlank(lines: seq<string>): (r: seq<string>)
    ensures forall l :: l in r <==> l in lines && Text.Trim(l) != ""
    ensures |r| <= |lines|
    ensures Board.SubsequenceOf(r, lines)
    ensures forall l :: multiset(r)[l] == if Text.Trim(l) != "" then multiset(lines)[l] else 0
  {
    if |lines| == 0 then []
    else
      assert lines == [lines[0]] + lines[1..];
      if Text.Trim(lines[0]) != "" then [lines[0]] + NonBlank(lines[1..])
    else NonBlank(lines[1..])
  }

  /** `xs.map((x, k) => f(x, k))`: each element mapped together with its position. */
  function MapIndexed<A, B>(f: (A, nat) -> B, xs: seq<A>): (r: seq<B>)
    ensures |r| == |xs|
  {
    if |xs| == 0 then []
    else
      var n := |xs| - 1;
      MapIndexed(f, xs[..n]) + [f(xs[n], n)]
  }

  /** The k-th element of the mapped sequence is `f` of the k-th element and `k`. */
  lemma {:induction false} MapIndexedAt<A, B>(f: (A, nat) -> B, xs: seq<A>, k: nat)
    requires k < |xs|
    ensures MapIndexed(f, xs)[k] == f(xs[k], k)
  {
    var n := |xs| - 1;
    if k < n {
      MapIndexedAt(f, xs[..n], k);
      assert xs[..n][k] == xs[k];
    }
  }

  /** One task per data line, the k-th with id `uploaded-<now>-<k>`. */
  function RowTasks(headers: seq<string>, rows: seq<string>, team: seq<string>, now: string): (r: seq<Task>)
    ensures |r| == |rows|
  {
    MapIndexed((line: string, k: nat) => RowTask(headers, line, team, UploadId(now, k)), rows)
  }

  /** The k-th task comes from the k-th data line and carries the k-th upload id. */
  lemma RowTasksAt(headers: seq<string>, rows: seq<string>, team: seq<string>, now: string, k: nat)
    requires k < |rows|
    ensures RowTasks(headers, rows, team, now)[k] == RowTask(headers, rows[k], team, UploadId(now, k))
  {
    MapIndexedAt((line: string, k: nat) => RowTask(headers, line, team, UploadId(now, k)), rows, k);
  }

  /**
   * The tasks one file yields: none when the text has fewer than two lines,
   * otherwise one task per non-blank data line.
   */
  function ImportTasks(text: string, team: seq<string>, now: string): (r: seq<Task>)
    ensures |Text.Split(text, '\n')| < 2 ==> r == []
    ensures |Text.Split(text, '\n')| >= 2 ==> |r| == |NonBlank(Text.Split(text, '\n')[1..])|
  {
    var lines := Text.Split(text, '\n');
    if |lines| < 2 then []
    else RowTasks(Headers(lines[0]), NonBlank(lines[1..]), team, now)
  }

  /**
   * Every imported task is Pending, has empty comments, dependencies and
   * history, carries the upload id of its position, and is built from the
   * non-blank data line at that position.
   */
  lemma ImportedTask(text: string, team: seq<string>, now: string, i: nat)
    requires i < |ImportTasks(text, team, now)|
    ensures var lines := Text.Split(text, '\n');
      && |lines| >= 2
      && var r := ImportTasks(text, team, now)[i];
      && r == RowTask(Headers(lines[0]), NonBlank(lines[1..])[i], team, UploadId(now, i))
      && r.status == Pending && r.comments == [] && r.dependencies == [] && r.history == []
      && r.id == UploadId(now, i)
  {
    var lines := Text.Split(text, '\n');
    RowTasksAt(Headers(lines[0]), NonBlank(lines[1..]), team, now, i);
  }

  /** The task object of one data line, built by the field-filling loop. */
  method BuildTask(headers: seq<string>, line: string, team: seq<string>, id: string) returns (t: Task)
    ensures t == RowTask(headers, line, team, id)
  {
    var cells := FillCells(headers, Values(line), team);
    t := TaskOfCells(id, cells);
  }

  /** The callback's loop over the data lines, building one task per line in order. */
  method BuildRows(headers: seq<string>, rows: seq<string>, team: seq<string>, now: string) returns (tasks: seq<Task>)
    ensures tasks == RowTasks(headers, rows, team, now)
  {
    tasks := [];
    for k := 0 to |rows|
      invariant tasks == RowTasks(headers, rows[..k], team, now)
    {
      var t := BuildTask(headers, rows[k], team, UploadId(now, k));
      assert rows[..k + 1][..k] == rows[..k];
      tasks := tasks + [t];
    }
    assert rows[..|rows|] == rows;
  }

  /** `reader.onload`: split the text into lines and build the tasks of the data lines. */
  method ParseFile(text: string, team: seq<string>, now: string) returns (tasks: seq<Task>)
    ensures tasks == ImportTasks(text, team, now)
  {
    var lines := Text.Split(text, '\n');
    if |lines| < 2 {
      return [];
    }
    tasks := BuildRows(Headers(lines[0]), NonBlank(lines[1..]), team, now);
  }
}
