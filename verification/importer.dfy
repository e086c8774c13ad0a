/**
 * The row-to-hierarchy import: a fold over the rows of the spreadsheet that
 * carries the current epic and task titles, the issue-key cache, and the
 * log of issues created so far. The backend is a fresh-key generator: the
 * n-th creation of a run receives `FreshKey(n)` and is appended to the log.
 */
module Importer {
  import opened Wrappers
  import opened Text
  import opened IssueCache
  import opened Users
  import opened SubtaskFields

  /** One record as the CSV reader yields it. */
  type Row = seq<string>

  /** Columns: epic, task, subtask, cost in hours, assignee, priority. */
  const Columns: nat := 6

  predicate WellFormed(rows: seq<Row>)
  {
    forall i :: 0 <= i < |rows| ==> |rows[i]| >= Columns
  }

  /** A data row once blanks are filled in and cells are stripped. */
  datatype WorkRow = WorkRow(epic: string, task: string, subtask: string, cost: string, assignee: string, priority: string)

  /** A non-empty cell replaces the carried value (stripped); an empty one
      keeps it. The test is on the raw cell, so a cell of blanks is
      non-empty and strips to "". */
  function FillCell(cell: string, carried: string): string
  {
    if cell != "" then Strip(cell) else carried
  }

  /** One row after sparse fill: epic and task carry forward, a blank
      subtask means the row stands for the (already updated) task. */
  function Fill(row: Row, epic: string, task: string): WorkRow
    requires |row| >= Columns
  {
    var e := FillCell(row[0], epic);
    var t := FillCell(row[1], task);
    WorkRow(e, t, FillCell(row[2], t), Strip(row[3]), Strip(row[4]), Strip(row[5]))
  }

  /** All rows after sparse fill, starting from the given carried titles. */
  function SparseFill(rows: seq<Row>, epic: string, task: string): (ws: seq<WorkRow>)
    requires WellFormed(rows)
    ensures |ws| == |rows|
  {
    if |rows| == 0 then []
    else
      var w := Fill(rows[0], epic, task);
      [w] + SparseFill(rows[1..], w.epic, w.task)
  }

  /** An issue creation, as the backend sees it. */
  datatype Creation =
    | EpicCreated(summary: string)
    | TaskCreated(summary: string, epicKey: string)
    | SubtaskCreated(summary: string, taskKey: string, assignee: string, priority: string, costMinutes: int)
  {
    function Kind(): IssueType
    {
      match this
      case EpicCreated(_) => Epic
      case TaskCreated(_, _) => Task
      case SubtaskCreated(_, _, _, _, _) => Subtask
    }

    /** The cache key a search would list this issue under. */
    function LookupKey(): string
    {
      Key(Kind(), summary)
    }
  }

  /** The backend's key for the n-th issue created in a run. */
  function FreshKey(n: nat): string
  {
    "NEW-" + ShowInt(n)
  }

  /** Distinct creations receive distinct keys. */
  lemma FreshKeyInjective(m: nat, n: nat)
    ensures FreshKey(m) == FreshKey(n) <==> m == n
  {
    assert FreshKey(m)[4..] == ShowInt(m);
    assert FreshKey(n)[4..] == ShowInt(n);
    ParseShowInt(m);
    ParseShowInt(n);
  }

  /** The state threaded through the rows. */
  datatype State = State(epic: string, task: string, keys: map<string, string>, created: seq<Creation>)

  function Start(keys: map<string, string>): State
  {
    State("", "", keys, [])
  }

  /** `b` follows `a`: no cache entry removed or overwritten, and the log
      only appended to. */
  ghost predicate Extends(a: State, b: State)
  {
    && (forall k :: k in a.keys ==> k in b.keys && b.keys[k] == a.keys[k])
    && a.created <= b.created
  }

  /** `b` is `a` after the backend created `c`, whose key was not cached:
      `c` is appended to the log and, unless it is a subtask, the key the
      backend gave it is cached under its lookup key; no other entry
      changes. */
  ghost predicate Creates(a: State, c: Creation, b: State)
  {
    && c.LookupKey() !in a.keys
    && b.created == a.created + [c]
    && b.keys.Keys == a.keys.Keys + (if c.SubtaskCreated? then {} else {c.LookupKey()})
    && (!c.SubtaskCreated? ==> b.keys[c.LookupKey()] == FreshKey(|a.created|))
    && (forall k :: k in a.keys ==> b.keys[k] == a.keys[k])
  }

  datatype ImportError =
    | MissingColumn(row: Row)      // IndexError on a row with fewer than six cells
    | CostNotInteger(cost: string) // ValueError from int() on the cost cell

  /** The result of importing rows. An aborted import keeps what it did
      before the error: nothing is rolled back. */
  datatype Outcome =
    | Completed(st: State)
    | Aborted(error: ImportError, st: State)

  /** Asks the backend for a new issue. */
  function Issue(st: State, c: Creation): (string, State)
  {
    (FreshKey(|st.created|), st.(created := st.created + [c]))
  }

  /** The key of the epic titled `title`: the cached one, or a newly created
      epic's key, which is then cached. */
  function EnsureEpic(st: State, title: string): (r: (string, State))
    ensures Extends(st, r.1)
    ensures Key(Epic, title) in r.1.keys && r.0 == r.1.keys[Key(Epic, title)]
    ensures Key(Epic, title) in st.keys ==> r.1 == st
    ensures Key(Epic, title) !in st.keys ==> r.0 == FreshKey(|st.created|)
    ensures Key(Epic, title) !in st.keys ==> Creates(st, EpicCreated(title), r.1)
    ensures r.1.epic == st.epic && r.1.task == st.task
  {
    var k := Key(Epic, title);
    if k in st.keys then (st.keys[k], st)
    else
      var (key, st') := Issue(st, EpicCreated(title));
      (key, st'.(keys := st'.keys[k := key]))
  }

  /** The key of the task titled `title`, looked up by title alone: the
      cached one, or a newly created task's key (linked to `epicKey`),
      which is then cached. */
  function EnsureTask(st: State, epicKey: string, title: string): (r: (string, State))
    ensures Extends(st, r.1)
    ensures Key(Task, title) in r.1.keys && r.0 == r.1.keys[Key(Task, title)]
    ensures Key(Task, title) in st.keys ==> r.1 == st
    ensures Key(Task, title) !in st.keys ==> r.0 == FreshKey(|st.created|)
    ensures Key(Task, title) !in st.keys ==> Creates(st, TaskCreated(title, epicKey), r.1)
    ensures r.1.epic == st.epic && r.1.task == st.task
  {
    var k := Key(Task, title);
    if k in st.keys then (st.keys[k], st)
    else
      var (key, st') := Issue(st, TaskCreated(title, epicKey));
      (key, st'.(keys := st'.keys[k := key]))
  }

  /** The subtask of a filled row, under the task keyed `taskKey`: left
      alone when its key is cached (the key is never added), otherwise
      created with the translated assignee and the cost in minutes, unless
      the cost is not an integer, which aborts the import. */
  function EnsureSubtask(st: State, taskKey: string, w: WorkRow, names: map<string, string>): (r: Outcome)
    ensures Key(Subtask, w.subtask) in st.keys ==> r == Completed(st)
    ensures Key(Subtask, w.subtask) !in st.keys ==> (r.Aborted? <==> CostMinutes(w.cost).None?)
    ensures r.Aborted? ==> r == Aborted(CostNotInteger(w.cost), st)
    ensures Key(Subtask, w.subtask) !in st.keys && r.Completed? ==>
              && Creates(st, SubtaskCreated(w.subtask, taskKey, Assignee(names, w.assignee), w.priority, CostMinutes(w.cost).value), r.st)
              && r.st.epic == st.epic && r.st.task == st.task
  {
    if Key(Subtask, w.subtask) in st.keys then Completed(st)
    else
      match CostMinutes(w.cost)
      case None => Aborted(CostNotInteger(w.cost), st)
      case Some(minutes) =>
        var c := SubtaskCreated(w.subtask, taskKey, Assignee(names, w.assignee), w.priority, minutes);
        Completed(Issue(st, c).1)
  }

  /** One data row: fill, then epic, task and subtask in that order. */
  function ProcessRow(row: Row, names: map<string, string>, st: State): (r: Outcome)
    ensures Extends(st, r.st)
    ensures |row| < Columns ==> r == Aborted(MissingColumn(row), st)
    ensures |row| >= Columns ==> r.st.epic == Fill(row, st.epic, st.task).epic && r.st.task == Fill(row, st.epic, st.task).task
  {
    if |row| < Columns then Aborted(MissingColumn(row), st)
    else
      var w := Fill(row, st.epic, st.task);
      var (epicKey, st1) := EnsureEpic(st.(epic := w.epic, task := w.task), w.epic);
      var (taskKey, st2) := EnsureTask(st1, epicKey, w.task);
      EnsureSubtask(st2, taskKey, w, names)
  }

  /** All given rows, each as a data row. */
  function ImportData(rows: seq<Row>, names: map<string, string>, st: State): (r: Outcome)
    ensures Extends(st, r.st)
    decreases |rows|
  {
    if |rows| == 0 then Completed(st)
    else
      match ProcessRow(rows[0], names, st)
      case Aborted(e, s) => Aborted(e, s)
      case Completed(s) => ImportData(rows[1..], names, s)
  }

  /** The reading loop: `count` rows have been read so far; a row whose
      1-based count is at most `skip` is a header row and is ignored. The
      count only grows, so from the first data row on every row is a data
      row and the rest of the loop is the data loop. */
  function ImportRows(rows: seq<Row>, count: nat, skip: int, names: map<string, string>, st: State): (r: Outcome)
    decreases |rows|
  {
    if |rows| > 0 && count + 1 <= skip then ImportRows(rows[1..], count + 1, skip, names, st)
    else ImportData(rows, names, st)
  }

  /** `import_csv(file, skip_line)` against a given cache and name map. */
  function ImportCsv(rows: seq<Row>, skip: int, names: map<string, string>, keys: map<string, string>): Outcome
  {
    ImportRows(rows, 0, skip, names, Start(keys))
  }

  /** Construction followed by `import_csv`: the cache is seeded from the
      search response and the name map built from the assignable users. */
  function Run(response: Option<seq<SearchHit>>, users: seq<User>, rows: seq<Row>, skip: int): Outcome
  {
    ImportCsv(rows, skip, NameMap(users), Seed(response))
  }
}
