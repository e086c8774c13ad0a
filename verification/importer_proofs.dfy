/**
 * What the import promises: which rows are read, how blank cells are
 * filled, what one row creates, how the cache evolves over a run, and that
 * re-running the import against a cache that already knows the issues
 * creates nothing.
 */
module ImporterProofs {
  import opened Wrappers
  import opened Text
  import opened IssueCache
  import opened Users
  import opened SubtaskFields
  import opened Importer

  // ---------------------------------------------------------------------
  // Header rows
  // ---------------------------------------------------------------------

  /** The rows left once the first `skip` rows are dropped. */
  function DataRows(rows: seq<Row>, skip: int): seq<Row>
  {
    if skip <= 0 then rows else if skip >= |rows| then [] else rows[skip..]
  }

  /** One step of the data loop: an aborted first row ends the import with
      its own outcome; a completed one hands its state to the rest. */
  lemma DataStep(rows: seq<Row>, names: map<string, string>, st: State)
    requires |rows| > 0
    ensures var o := ProcessRow(rows[0], names, st);
      ImportData(rows, names, st) == if o.Aborted? then o else ImportData(rows[1..], names, o.st)
    ensures ImportData(rows, names, st).Completed? ==> ProcessRow(rows[0], names, st).Completed? && |rows[0]| >= Columns
  {
  }

  lemma DataRowsStep(rows: seq<Row>, n: int)
    requires |rows| > 0
    ensures n >= 1 ==> DataRows(rows, n) == DataRows(rows[1..], n - 1)
    ensures n <= 0 ==> DataRows(rows, n) == rows
  {
    if 1 <= n < |rows| {
      assert rows[n..] == rows[1..][n - 1..];
    }
  }

  /** Rows whose 1-based count is at most `skip` are ignored; every later
      row is processed as a data row, in order. */
  lemma {:induction false} HeaderRowsIgnored(rows: seq<Row>, count: nat, skip: int, names: map<string, string>, st: State)
    ensures ImportRows(rows, count, skip, names, st) == ImportData(DataRows(rows, skip - count), names, st)
    decreases |rows|
  {
    if |rows| > 0 && count + 1 <= skip {
      HeaderRowsIgnored(rows[1..], count + 1, skip, names, st);
      DataRowsStep(rows, skip - count);
      assert DataRows(rows, skip - count) == DataRows(rows[1..], skip - (count + 1));
    } else {
      assert DataRows(rows, skip - count) == rows;
    }
  }

  /** `import_csv` is the data-row fold over the rows after the header. */
  lemma {:induction false} ImportCsvSkipsHeader(rows: seq<Row>, skip: int, names: map<string, string>, keys: map<string, string>)
    ensures ImportCsv(rows, skip, names, keys) == ImportData(DataRows(rows, skip), names, Start(keys))
  {
    var st := Start(keys);
    HeaderRowsIgnored(rows, 0, skip, names, st);
    assert skip - 0 == skip;
  }

  // ---------------------------------------------------------------------
  // Sparse fill
  // ---------------------------------------------------------------------

  /** The value a work row carries for column `col`: 0 is the epic, 1 the task. */
  function Carried(w: WorkRow, col: nat): string
  {
    if col == 0 then w.epic else w.task
  }

  /** Sparse fill of a non-empty sheet: the first row filled from the
      initial titles, then the rest filled from the first row's titles. */
  lemma SparseFillCons(rows: seq<Row>, epic: string, task: string)
    requires WellFormed(rows) && |rows| > 0
    ensures WellFormed(rows[1..])
    ensures SparseFill(rows, epic, task)
              == [Fill(rows[0], epic, task)] + SparseFill(rows[1..], Fill(rows[0], epic, task).epic, Fill(rows[0], epic, task).task)
  {
    assert forall i :: 0 <= i < |rows| - 1 ==> rows[1..][i] == rows[i + 1];
  }

  /** Column `col` is empty in every row after `lo` up to and including
      `hi` (from the first row when `lo` is negative). */
  ghost predicate BlankAfter(rows: seq<Row>, col: nat, lo: int, hi: int)
    requires WellFormed(rows) && col < 2 && hi < |rows|
  {
    forall j :: 0 <= j && lo < j <= hi ==> rows[j][col] == ""
  }

  /** Epic and task titles carry forward: row i holds the stripped cell of
      the last row k at or before i whose cell is non-empty, or the initial
      value when every cell up to i is empty. */
  lemma {:induction false} CarriesForward(rows: seq<Row>, epic: string, task: string, col: nat)
    requires WellFormed(rows) && col < 2
    ensures forall i, k :: 0 <= k <= i < |rows| && rows[k][col] != "" && BlankAfter(rows, col, k, i)
              ==> Carried(SparseFill(rows, epic, task)[i], col) == Strip(rows[k][col])
    ensures forall i :: 0 <= i < |rows| && BlankAfter(rows, col, -1, i)
              ==> Carried(SparseFill(rows, epic, task)[i], col) == (if col == 0 then epic else task)
    decreases |rows|
  {
    if |rows| > 0 {
      var w := Fill(rows[0], epic, task);
      var ws := SparseFill(rows, epic, task);
      var rest := SparseFill(rows[1..], w.epic, w.task);
      SparseFillCons(rows, epic, task);
      CarriesForward(rows[1..], w.epic, w.task, col);
      FillCarries(rows[0], epic, task, col);
      forall i, k | 0 <= k <= i < |rows| && rows[k][col] != "" && BlankAfter(rows, col, k, i)
        ensures Carried(ws[i], col) == Strip(rows[k][col])
      {
        ConsIndex(ws, w, rest, i);
        BlankShift(rows, col, k, i);
      }
      forall i | 0 <= i < |rows| && BlankAfter(rows, col, -1, i)
        ensures Carried(ws[i], col) == (if col == 0 then epic else task)
      {
        ConsIndex(ws, w, rest, i);
        BlankShift(rows, col, -1, i);
      }
    }
  }

  lemma ConsIndex<T>(xs: seq<T>, x: T, ys: seq<T>, i: int)
    requires xs == [x] + ys && 0 <= i < |xs|
    ensures i == 0 ==> xs[i] == x
    ensures i > 0 ==> xs[i] == ys[i - 1]
  {
  }

  /** The first row fills column `col` from its cell, or keeps the initial
      title when the cell is empty. */
  lemma FillCarries(row: Row, epic: string, task: string, col: nat)
    requires |row| >= Columns && col < 2
    ensures Carried(Fill(row, epic, task), col) == FillCell(row[col], if col == 0 then epic else task)
  {
  }

  /** A blank run ending at row i > 0 is, in the sheet without its first
      row, a blank run ending at row i - 1; a blank run from the start
      includes the first row. */
  lemma BlankShift(rows: seq<Row>, col: nat, k: int, i: int)
    requires WellFormed(rows) && col < 2 && -1 <= k <= i < |rows| && 0 <= i && BlankAfter(rows, col, k, i)
    ensures WellFormed(rows[1..])
    ensures i > 0 ==> BlankAfter(rows[1..], col, k - 1, i - 1)
    ensures k > 0 ==> rows[1..][k - 1] == rows[k]
    ensures k == -1 ==> rows[0][col] == ""
  {
    forall j | 0 <= j && k - 1 < j <= i - 1 ensures rows[1..][j][col] == "" {
      assert rows[1..][j] == rows[j + 1];
    }
  }

  /** Row i of `ws` is row i of `rows` filled: the subtask title is the
      stripped cell, or the row's task title when the cell is empty; the
      task title is the stripped cell or the one carried from the row
      before (`task` for the first row); the other three cells are taken
      stripped. */
  ghost predicate Filled(rows: seq<Row>, ws: seq<WorkRow>, task: string, i: int)
    requires WellFormed(rows) && |ws| == |rows| && 0 <= i < |rows|
  {
    && ws[i].subtask == (if rows[i][2] != "" then Strip(rows[i][2]) else ws[i].task)
    && ws[i].task == (if rows[i][1] != "" then Strip(rows[i][1]) else if i == 0 then task else ws[i - 1].task)
    && ws[i].cost == Strip(rows[i][3])
    && ws[i].assignee == Strip(rows[i][4])
    && ws[i].priority == Strip(rows[i][5])
  }

  /** A blank subtask cell makes the subtask title the row's task title,
      after that title has been updated from the same row; the other three
      cells are taken from the row, stripped. */
  lemma {:induction false} SubtaskDefaultsToTask(rows: seq<Row>, epic: string, task: string)
    requires WellFormed(rows)
    ensures forall i :: 0 <= i < |rows| ==> Filled(rows, SparseFill(rows, epic, task), task, i)
    decreases |rows|
  {
    if |rows| > 0 {
      var w := Fill(rows[0], epic, task);
      SparseFillCons(rows, epic, task);
      SubtaskDefaultsToTask(rows[1..], w.epic, w.task);
      forall i | 0 <= i < |rows| ensures Filled(rows, SparseFill(rows, epic, task), task, i) {
        FilledShift(rows, epic, task, i);
      }
    }
  }

  /** Row i of a sheet is filled as row i - 1 of the sheet without its
      first row, started from the first row's titles. */
  lemma FilledShift(rows: seq<Row>, epic: string, task: string, i: int)
    requires WellFormed(rows) && 0 <= i < |rows|
    requires i > 0 ==> WellFormed(rows[1..]) && Filled(rows[1..], SparseFill(rows[1..], Fill(rows[0], epic, task).epic, Fill(rows[0], epic, task).task), Fill(rows[0], epic, task).task, i - 1)
    requires SparseFill(rows, epic, task) == [Fill(rows[0], epic, task)] + SparseFill(rows[1..], Fill(rows[0], epic, task).epic, Fill(rows[0], epic, task).task)
    ensures Filled(rows, SparseFill(rows, epic, task), task, i)
  {
    var ws := SparseFill(rows, epic, task);
    if i > 0 {
      var ws' := SparseFill(rows[1..], Fill(rows[0], epic, task).epic, Fill(rows[0], epic, task).task);
      assert rows[i] == rows[1..][i - 1];
      assert ws[i] == ws'[i - 1];
      if i > 1 {
        assert ws[i - 1] == ws'[i - 2];
      }
    }
  }

  // ---------------------------------------------------------------------
  // One row
  // ---------------------------------------------------------------------

  /** What one well-formed row does, relative to the cache at its start:
      its epic is created iff uncached, then its task iff uncached (linked
      to the epic's key), then its subtask iff uncached (parented to the
      task's key), where a non-integer cost aborts instead. Afterwards the
      epic and task are cached and nothing else is added. */
  lemma RowEffect(row: Row, names: map<string, string>, st: State)
    requires |row| >= Columns
    ensures
      var w := Fill(row, st.epic, st.task);
      var out := ProcessRow(row, names, st);
      var newEpic := Key(Epic, w.epic) !in st.keys;
      var newTask := Key(Task, w.task) !in st.keys;
      var newSubtask := Key(Subtask, w.subtask) !in st.keys;
      && (out.Aborted? <==> newSubtask && CostMinutes(w.cost).None?)
      && (out.Aborted? ==> out.error == CostNotInteger(w.cost))
      && out.st.keys.Keys == st.keys.Keys + {Key(Epic, w.epic), Key(Task, w.task)}
      && out.st.keys[Key(Epic, w.epic)] == (if newEpic then FreshKey(|st.created|) else st.keys[Key(Epic, w.epic)])
      && out.st.keys[Key(Task, w.task)]
           == (if newTask then FreshKey(|st.created| + (if newEpic then 1 else 0)) else st.keys[Key(Task, w.task)])
      && out.st.created == st.created
           + (if newEpic then [EpicCreated(w.epic)] else [])
           + (if newTask then [TaskCreated(w.task, out.st.keys[Key(Epic, w.epic)])] else [])
           + (if newSubtask && out.Completed?
              then [SubtaskCreated(w.subtask, out.st.keys[Key(Task, w.task)], Assignee(names, w.assignee), w.priority, CostMinutes(w.cost).value)]
              else [])
  {
    var w := Fill(row, st.epic, st.task);
    KeyInjective(Subtask, w.subtask, Epic, w.epic);
    KeyInjective(Subtask, w.subtask, Task, w.task);
    EpicThenTask(st.(epic := w.epic, task := w.task), w.epic, w.task);
  }

  /** The epic step followed by the task step of a row, relative to the
      cache before both. */
  lemma EpicThenTask(st: State, e: string, t: string)
    ensures
      var r1 := EnsureEpic(st, e);
      var r2 := EnsureTask(r1.1, r1.0, t);
      var newEpic := Key(Epic, e) !in st.keys;
      var newTask := Key(Task, t) !in st.keys;
      && r2.1.epic == st.epic && r2.1.task == st.task
      && r2.1.keys.Keys == st.keys.Keys + {Key(Epic, e), Key(Task, t)}
      && r2.1.keys[Key(Epic, e)] == r1.0
      && r1.0 == (if newEpic then FreshKey(|st.created|) else st.keys[Key(Epic, e)])
      && r2.0 == r2.1.keys[Key(Task, t)]
      && r2.0 == (if newTask then FreshKey(|st.created| + (if newEpic then 1 else 0)) else st.keys[Key(Task, t)])
      && r2.1.created == st.created
           + (if newEpic then [EpicCreated(e)] else [])
           + (if newTask then [TaskCreated(t, r1.0)] else [])
  {
    KeyInjective(Epic, e, Task, t);
    var r1 := EnsureEpic(st, e);
    var r2 := EnsureTask(r1.1, r1.0, t);
    var ep := if Key(Epic, e) !in st.keys then [EpicCreated(e)] else [];
    var tk := if Key(Task, t) !in st.keys then [TaskCreated(t, r1.0)] else [];
    assert r1.1.created == st.created + ep;
    assert r2.1.created == st.created + ep + tk;
  }

  /** Tasks are looked up by title alone: a row whose task title was
      already seen, under whatever epic, creates no task. */
  lemma TaskReusedAcrossEpics(first: Row, second: Row, names: map<string, string>, st: State)
    requires |first| >= Columns && |second| >= Columns && ProcessRow(first, names, st).Completed?
    requires var s1 := ProcessRow(first, names, st).st;
      Fill(second, s1.epic, s1.task).task == Fill(first, st.epic, st.task).task
    ensures var s1 := ProcessRow(first, names, st).st;
      var s2 := ProcessRow(second, names, s1).st;
      forall i :: |s1.created| <= i < |s2.created| ==> !s2.created[i].TaskCreated?
  {
    var s1 := ProcessRow(first, names, st).st;
    RowCovers(first, names, st);
    CachedTaskNotCreated(second, names, s1);
  }

  /** A row whose task key is cached creates no task. */
  lemma CachedTaskNotCreated(row: Row, names: map<string, string>, st: State)
    requires |row| >= Columns && Key(Task, Fill(row, st.epic, st.task).task) in st.keys
    ensures var out := ProcessRow(row, names, st).st;
      forall i :: |st.created| <= i < |out.created| ==> !out.created[i].TaskCreated?
  {
    RowEffect(row, names, st);
    var out := ProcessRow(row, names, st).st;
    var n := |st.created|;
    assert out.created[..n] == st.created;
    forall i | n <= i < |out.created| ensures !out.created[i].TaskCreated? {
      assert out.created[n..][i - n] == out.created[i];
    }
  }

  // ---------------------------------------------------------------------
  // A run: the cache discipline
  // ---------------------------------------------------------------------

  /** Keys of the epics and tasks in a creation log (subtasks are not cached). */
  ghost function CachedKeys(cs: seq<Creation>): set<string>
  {
    set i | 0 <= i < |cs| && !cs[i].SubtaskCreated? :: cs[i].LookupKey()
  }

  /** No two epics and no two tasks of a log share a title. */
  ghost predicate NoDuplicates(cs: seq<Creation>)
  {
    forall i, j :: 0 <= i < j < |cs| && !cs[i].SubtaskCreated? && cs[i].Kind() == cs[j].Kind() ==> cs[i].summary != cs[j].summary
  }

  /** The cache discipline relative to the cache `keys0` a run started from. */
  ghost predicate Disciplined(keys0: map<string, string>, st: State)
  {
    && st.keys.Keys == keys0.Keys + CachedKeys(st.created)
    && (forall k :: k in keys0 ==> k in st.keys && st.keys[k] == keys0[k])
    && (forall i :: 0 <= i < |st.created| ==> st.created[i].LookupKey() !in keys0)
    && NoDuplicates(st.created)
    && KeyedByBackend(st)
  }

  /** Every epic and task of the log is cached under the key the backend
      gave it: the i-th creation's `FreshKey(i)`. */
  ghost predicate KeyedByBackend(st: State)
  {
    forall i :: 0 <= i < |st.created| && !st.created[i].SubtaskCreated? ==>
      st.created[i].LookupKey() in st.keys && st.keys[st.created[i].LookupKey()] == FreshKey(i)
  }

  lemma CachedKeysAppend(cs: seq<Creation>, ds: seq<Creation>)
    ensures CachedKeys(cs + ds) == CachedKeys(cs) + CachedKeys(ds)
  {
    var both := cs + ds;
    forall k | k in CachedKeys(both) ensures k in CachedKeys(cs) + CachedKeys(ds) {
      var i :| 0 <= i < |both| && !both[i].SubtaskCreated? && both[i].LookupKey() == k;
      if i >= |cs| { assert both[i] == ds[i - |cs|]; }
    }
    forall k | k in CachedKeys(ds) ensures k in CachedKeys(both) {
      var i :| 0 <= i < |ds| && !ds[i].SubtaskCreated? && ds[i].LookupKey() == k;
      assert both[i + |cs|] == ds[i];
    }
    forall k | k in CachedKeys(cs) ensures k in CachedKeys(both) {
      var i :| 0 <= i < |cs| && !cs[i].SubtaskCreated? && cs[i].LookupKey() == k;
      assert both[i] == cs[i];
    }
  }

  lemma CachedKeysSingle(c: Creation)
    ensures CachedKeys([c]) == if c.SubtaskCreated? then {} else {c.LookupKey()}
  {
    if !c.SubtaskCreated? {
      assert [c][0].LookupKey() in CachedKeys([c]);
    }
  }

  /** One creation of an uncached issue keeps the cache discipline. */
  lemma CreateKeepsDiscipline(keys0: map<string, string>, a: State, c: Creation, b: State)
    requires Disciplined(keys0, a) && Creates(a, c, b)
    ensures Disciplined(keys0, b)
  {
    CachedKeysAppend(a.created, [c]);
    CachedKeysSingle(c);
    CreateKeepsAbsent(keys0, a, c, b);
    CreateKeepsDistinct(keys0, a, c, b);
    CreateKeepsKeyed(a, c, b);
  }

  lemma CreateKeepsKeyed(a: State, c: Creation, b: State)
    requires KeyedByBackend(a) && Creates(a, c, b)
    ensures KeyedByBackend(b)
  {
    forall i | 0 <= i < |b.created| && !b.created[i].SubtaskCreated?
      ensures b.created[i].LookupKey() in b.keys && b.keys[b.created[i].LookupKey()] == FreshKey(i)
    {
      if i < |a.created| { assert b.created[i] == a.created[i]; }
    }
  }

  lemma CreateKeepsAbsent(keys0: map<string, string>, a: State, c: Creation, b: State)
    requires Disciplined(keys0, a) && Creates(a, c, b)
    ensures forall i :: 0 <= i < |b.created| ==> b.created[i].LookupKey() !in keys0
  {
    forall i | 0 <= i < |b.created| ensures b.created[i].LookupKey() !in keys0 {
      if i < |a.created| { assert b.created[i] == a.created[i]; }
    }
  }

  lemma CreateKeepsDistinct(keys0: map<string, string>, a: State, c: Creation, b: State)
    requires Disciplined(keys0, a) && Creates(a, c, b)
    ensures NoDuplicates(b.created)
  {
    forall i, j | 0 <= i < j < |b.created| && !b.created[i].SubtaskCreated? && b.created[i].Kind() == b.created[j].Kind()
      ensures b.created[i].summary != b.created[j].summary
    {
      assert b.created[i] == a.created[i];
      if j == |a.created| {
        assert b.created[i].LookupKey() in CachedKeys(a.created);
      } else {
        assert b.created[j] == a.created[j];
      }
    }
  }

  lemma EpicKeepsDiscipline(keys0: map<string, string>, st: State, title: string)
    requires Disciplined(keys0, st)
    ensures Disciplined(keys0, EnsureEpic(st, title).1)
  {
    if Key(Epic, title) !in st.keys {
      CreateKeepsDiscipline(keys0, st, EpicCreated(title), EnsureEpic(st, title).1);
    }
  }

  lemma {:induction false} TaskKeepsDiscipline(keys0: map<string, string>, st: State, epicKey: string, title: string)
    requires Disciplined(keys0, st)
    ensures Disciplined(keys0, EnsureTask(st, epicKey, title).1)
  {
    if Key(Task, title) !in st.keys {
      CreateKeepsDiscipline(keys0, st, TaskCreated(title, epicKey), EnsureTask(st, epicKey, title).1);
    }
  }

  lemma {:induction false} SubtaskKeepsDiscipline(keys0: map<string, string>, st: State, taskKey: string, w: WorkRow, names: map<string, string>)
    requires Disciplined(keys0, st)
    ensures Disciplined(keys0, EnsureSubtask(st, taskKey, w, names).st)
  {
    var r := EnsureSubtask(st, taskKey, w, names);
    if Key(Subtask, w.subtask) !in st.keys && r.Completed? {
      var c := SubtaskCreated(w.subtask, taskKey, Assignee(names, w.assignee), w.priority, CostMinutes(w.cost).value);
      CreateKeepsDiscipline(keys0, st, c, r.st);
    }
  }

  /** One row keeps the cache discipline. */
  lemma {:induction false} RowKeepsDiscipline(keys0: map<string, string>, row: Row, names: map<string, string>, st: State)
    requires Disciplined(keys0, st)
    ensures Disciplined(keys0, ProcessRow(row, names, st).st)
  {
    if |row| >= Columns {
      var w := Fill(row, st.epic, st.task);
      var st0 := st.(epic := w.epic, task := w.task);
      EpicKeepsDiscipline(keys0, st0, w.epic);
      var r1 := EnsureEpic(st0, w.epic);
      TaskKeepsDiscipline(keys0, r1.1, r1.0, w.task);
      var r2 := EnsureTask(r1.1, r1.0, w.task);
      SubtaskKeepsDiscipline(keys0, r2.1, r2.0, w, names);
    }
  }

  /** A run keeps the cache discipline, whether it completes or aborts. */
  lemma {:induction false} ImportKeepsDiscipline(keys0: map<string, string>, rows: seq<Row>, names: map<string, string>, st: State)
    requires Disciplined(keys0, st)
    ensures Disciplined(keys0, ImportData(rows, names, st).st)
    decreases |rows|
  {
    if |rows| > 0 {
      DataStep(rows, names, st);
      RowKeepsDiscipline(keys0, rows[0], names, st);
      var o := ProcessRow(rows[0], names, st);
      if o.Completed? {
        ImportKeepsDiscipline(keys0, rows[1..], names, o.st);
      }
    }
  }

  /** The cache over a whole import, completed or aborted: it grows exactly
      by the keys of the epics and tasks created; no entry it started with
      is removed or overwritten; every issue created (of any type) was
      absent from it at the start; no epic or task title is created twice;
      and each created epic or task is cached under the key the backend
      returned for it. */
  lemma CacheDiscipline(rows: seq<Row>, skip: int, names: map<string, string>, keys0: map<string, string>)
    ensures var out := ImportCsv(rows, skip, names, keys0).st;
      && out.keys.Keys == keys0.Keys + CachedKeys(out.created)
      && (forall k :: k in keys0 ==> k in out.keys && out.keys[k] == keys0[k])
      && (forall i :: 0 <= i < |out.created| ==> out.created[i].LookupKey() !in keys0)
      && NoDuplicates(out.created)
      && KeyedByBackend(out)
  {
    ImportCsvSkipsHeader(rows, skip, names, keys0);
    ImportKeepsDiscipline(keys0, DataRows(rows, skip), names, Start(keys0));
  }

  /** Subtasks are never cached: a subtask key is in the final cache iff it
      was in the cache the import started from. */
  lemma SubtasksNeverCached(rows: seq<Row>, skip: int, names: map<string, string>, keys0: map<string, string>, s: string)
    ensures Key(Subtask, s) in ImportCsv(rows, skip, names, keys0).st.keys <==> Key(Subtask, s) in keys0
  {
    CacheDiscipline(rows, skip, names, keys0);
    var cs := ImportCsv(rows, skip, names, keys0).st.created;
    forall i | 0 <= i < |cs| && !cs[i].SubtaskCreated? ensures cs[i].LookupKey() != Key(Subtask, s) {
      KeyInjective(cs[i].Kind(), cs[i].summary, Subtask, s);
    }
  }

  /** The cache key is a plain concatenation, so a listed issue whose type
      name is `TypeName(t)` followed by the first character of `s`, and
      whose summary is the rest of `s`, stands in for the issue of type `t`
      titled `s`: an import seeded from that search never creates it. */
  lemma AliasedHitBlocksCreation(response: Option<seq<SearchHit>>, users: seq<User>, rows: seq<Row>, skip: int,
                                 t: IssueType, s: string, key: string)
    requires |s| > 0 && SearchHit(TypeName(t) + [s[0]], s[1..], key) in Listed(response)
    ensures var cs := Run(response, users, rows, skip).st.created;
      forall i :: 0 <= i < |cs| ==> !(cs[i].Kind() == t && cs[i].summary == s)
  {
    var hits := Listed(response);
    var j :| 0 <= j < |hits| && hits[j] == SearchHit(TypeName(t) + [s[0]], s[1..], key);
    ConcatenatedKeyAliases(t, s);
    assert Key(t, s) in Seed(response) by {
      assert HitKey(hits[j]) in HitKeys(hits);
    }
    CacheDiscipline(rows, skip, NameMap(users), Seed(response));
  }

  // ---------------------------------------------------------------------
  // Subtask creations
  // ---------------------------------------------------------------------

  /** The titles of the subtasks in a log, in order. */
  function SubtaskTitles(cs: seq<Creation>): seq<string>
  {
    if |cs| == 0 then []
    else (if cs[0].SubtaskCreated? then [cs[0].summary] else []) + SubtaskTitles(cs[1..])
  }

  /** The subtask titles of the work rows whose subtask key is not in `keys`. */
  function Uncached(ws: seq<WorkRow>, keys: map<string, string>): seq<string>
  {
    if |ws| == 0 then []
    else (if Key(Subtask, ws[0].subtask) !in keys then [ws[0].subtask] else []) + Uncached(ws[1..], keys)
  }

  /** Regrouping a concatenation; a separate step keeps the callers' proof
      obligations small. */
  lemma AppendAssoc<T>(a: seq<T>, b: seq<T>, c: seq<T>)
    ensures (a + b) + c == a + (b + c)
  {
  }

  lemma {:induction false} SubtaskTitlesAppend(cs: seq<Creation>, ds: seq<Creation>)
    ensures SubtaskTitles(cs + ds) == SubtaskTitles(cs) + SubtaskTitles(ds)
    decreases |cs|
  {
    if |cs| > 0 {
      var h := if cs[0].SubtaskCreated? then [cs[0].summary] else [];
      assert (cs + ds)[0] == cs[0];
      assert (cs + ds)[1..] == cs[1..] + ds;
      SubtaskTitlesAppend(cs[1..], ds);
      assert (h + SubtaskTitles(cs[1..])) + SubtaskTitles(ds) == h + (SubtaskTitles(cs[1..]) + SubtaskTitles(ds));
    } else {
      assert cs + ds == ds;
    }
  }

  /** `b` has the subtask titles of `a` followed by `added`, and the same
      cached subtask keys. */
  ghost predicate SubtasksGrow(a: State, added: seq<string>, b: State)
  {
    && SubtaskTitles(b.created) == SubtaskTitles(a.created) + added
    && (forall s :: Key(Subtask, s) in b.keys <==> Key(Subtask, s) in a.keys)
  }

  /** A creation adds its title to the subtask titles exactly when it is a
      subtask, and never adds a subtask key to the cache. */
  lemma CreateSubtasks(a: State, c: Creation, b: State)
    requires Creates(a, c, b)
    ensures SubtasksGrow(a, if c.SubtaskCreated? then [c.summary] else [], b)
  {
    SubtaskTitlesAppend(a.created, [c]);
    assert SubtaskTitles([c]) == (if c.SubtaskCreated? then [c.summary] else []) + SubtaskTitles([]);
    forall s ensures Key(Subtask, s) in b.keys <==> Key(Subtask, s) in a.keys {
      KeyInjective(Subtask, s, c.Kind(), c.summary);
    }
  }

  lemma EpicSubtasks(st: State, title: string)
    ensures SubtasksGrow(st, [], EnsureEpic(st, title).1)
  {
    if Key(Epic, title) !in st.keys {
      CreateSubtasks(st, EpicCreated(title), EnsureEpic(st, title).1);
    } else {
      assert SubtaskTitles(st.created) + [] == SubtaskTitles(st.created);
    }
  }

  lemma TaskSubtasks(st: State, epicKey: string, title: string)
    ensures SubtasksGrow(st, [], EnsureTask(st, epicKey, title).1)
  {
    if Key(Task, title) !in st.keys {
      CreateSubtasks(st, TaskCreated(title, epicKey), EnsureTask(st, epicKey, title).1);
    } else {
      assert SubtaskTitles(st.created) + [] == SubtaskTitles(st.created);
    }
  }

  lemma SubtaskSubtasks(st: State, taskKey: string, w: WorkRow, names: map<string, string>)
    requires EnsureSubtask(st, taskKey, w, names).Completed?
    ensures SubtasksGrow(st, if Key(Subtask, w.subtask) !in st.keys then [w.subtask] else [], EnsureSubtask(st, taskKey, w, names).st)
  {
    var r := EnsureSubtask(st, taskKey, w, names);
    if Key(Subtask, w.subtask) !in st.keys {
      var c := SubtaskCreated(w.subtask, taskKey, Assignee(names, w.assignee), w.priority, CostMinutes(w.cost).value);
      CreateSubtasks(st, c, r.st);
    } else {
      assert SubtaskTitles(st.created) + [] == SubtaskTitles(st.created);
    }
  }

  /** A completed row adds the subtask title to the log exactly when its
      subtask key was not cached, and leaves the cached subtask keys as
      they were. */
  lemma RowSubtasks(row: Row, names: map<string, string>, st: State)
    requires |row| >= Columns && ProcessRow(row, names, st).Completed?
    ensures var w := Fill(row, st.epic, st.task);
      SubtasksGrow(st, if Key(Subtask, w.subtask) !in st.keys then [w.subtask] else [], ProcessRow(row, names, st).st)
  {
    var w := Fill(row, st.epic, st.task);
    var st0 := st.(epic := w.epic, task := w.task);
    EpicSubtasks(st0, w.epic);
    var r1 := EnsureEpic(st0, w.epic);
    TaskSubtasks(r1.1, r1.0, w.task);
    var r2 := EnsureTask(r1.1, r1.0, w.task);
    SubtaskSubtasks(r2.1, r2.0, w, names);
    assert SubtaskTitles(st0.created) + [] == SubtaskTitles(st0.created);
  }

  lemma {:induction false} UncachedSameSubtaskKeys(ws: seq<WorkRow>, a: map<string, string>, b: map<string, string>)
    requires forall s :: Key(Subtask, s) in a <==> Key(Subtask, s) in b
    ensures Uncached(ws, a) == Uncached(ws, b)
    decreases |ws|
  {
    if |ws| > 0 {
      UncachedSameSubtaskKeys(ws[1..], a, b);
    }
  }

  lemma WellFormedCons(rows: seq<Row>)
    requires |rows| > 0 && |rows[0]| >= Columns && WellFormed(rows[1..])
    ensures WellFormed(rows)
  {
    forall i | 0 <= i < |rows| ensures |rows[i]| >= Columns {
      if i > 0 { assert rows[i] == rows[1..][i - 1]; }
    }
  }

  /** The first row of a completed import, in terms of subtask titles: it
      adds its subtask exactly when uncached. */
  lemma {:induction false} SubtaskStep(rows: seq<Row>, names: map<string, string>, st: State)
    requires |rows| > 0 && WellFormed(rows) && ProcessRow(rows[0], names, st).Completed?
    ensures var s1 := ProcessRow(rows[0], names, st).st;
      var w := Fill(rows[0], st.epic, st.task);
      var u := if Key(Subtask, w.subtask) !in st.keys then [w.subtask] else [];
      && SubtaskTitles(s1.created) == SubtaskTitles(st.created) + u
      && Uncached(SparseFill(rows, st.epic, st.task), st.keys) == u + Uncached(SparseFill(rows[1..], s1.epic, s1.task), s1.keys)
  {
    var s1 := ProcessRow(rows[0], names, st).st;
    RowSubtasks(rows[0], names, st);
    SparseFillCons(rows, st.epic, st.task);
    var rest := SparseFill(rows[1..], s1.epic, s1.task);
    var ws := SparseFill(rows, st.epic, st.task);
    UncachedSameSubtaskKeys(rest, s1.keys, st.keys);
    assert ws[0] == Fill(rows[0], st.epic, st.task) && ws[1..] == rest;
  }

  /** A completed import creates one subtask for every data row whose
      subtask key is not in the cache it started from, in row order, and
      nothing else of type subtask: a title that repeats is created again
      each time, and a cached subtask is never touched. */
  lemma {:induction false} SubtaskPerUncachedRow(rows: seq<Row>, names: map<string, string>, st: State)
    requires ImportData(rows, names, st).Completed?
    ensures WellFormed(rows)
    ensures SubtaskTitles(ImportData(rows, names, st).st.created)
              == SubtaskTitles(st.created) + Uncached(SparseFill(rows, st.epic, st.task), st.keys)
    decreases |rows|
  {
    if |rows| > 0 {
      var s1 := ProcessRow(rows[0], names, st).st;
      DataStep(rows, names, st);
      SubtaskPerUncachedRow(rows[1..], names, s1);
      WellFormedCons(rows);
      SubtaskStep(rows, names, st);
      var w := Fill(rows[0], st.epic, st.task);
      var u := if Key(Subtask, w.subtask) !in st.keys then [w.subtask] else [];
      AppendAssoc(SubtaskTitles(st.created), u, Uncached(SparseFill(rows[1..], s1.epic, s1.task), s1.keys));
    }
  }

  // ---------------------------------------------------------------------
  // Idempotence
  // ---------------------------------------------------------------------

  /** Every work row's epic, task and subtask key is in `keys`. */
  ghost predicate Covered(keys: set<string>, ws: seq<WorkRow>)
  {
    forall i :: 0 <= i < |ws| ==>
      Key(Epic, ws[i].epic) in keys && Key(Task, ws[i].task) in keys && Key(Subtask, ws[i].subtask) in keys
  }

  /** A first row whose three keys are cached completes, creating nothing
      and only taking over its titles. */
  lemma {:induction false} CoveredStep(rows: seq<Row>, names: map<string, string>, st: State)
    requires |rows| > 0 && WellFormed(rows)
    requires Covered(st.keys.Keys, SparseFill(rows, st.epic, st.task))
    ensures var w := Fill(rows[0], st.epic, st.task);
      && ProcessRow(rows[0], names, st) == Completed(st.(epic := w.epic, task := w.task))
      && WellFormed(rows[1..])
      && Covered(st.keys.Keys, SparseFill(rows[1..], w.epic, w.task))
  {
    SparseFillCons(rows, st.epic, st.task);
    var w := Fill(rows[0], st.epic, st.task);
    var ws := SparseFill(rows, st.epic, st.task);
    var rest := SparseFill(rows[1..], w.epic, w.task);
    assert ws[0] == w;
    forall i | 0 <= i < |rest|
      ensures Key(Epic, rest[i].epic) in st.keys && Key(Task, rest[i].task) in st.keys && Key(Subtask, rest[i].subtask) in st.keys
    {
      assert rest[i] == ws[i + 1];
    }
  }

  /** When the cache already holds the epic, task and subtask key of every
      row, the rows create nothing and leave the cache as it was. */
  lemma {:induction false} CoveredRowsCreateNothing(rows: seq<Row>, names: map<string, string>, st: State)
    requires WellFormed(rows)
    requires Covered(st.keys.Keys, SparseFill(rows, st.epic, st.task))
    ensures var out := ImportData(rows, names, st);
      out.Completed? && out.st.keys == st.keys && out.st.created == st.created
    decreases |rows|
  {
    if |rows| > 0 {
      CoveredStep(rows, names, st);
      DataStep(rows, names, st);
      var w := Fill(rows[0], st.epic, st.task);
      CoveredRowsCreateNothing(rows[1..], names, st.(epic := w.epic, task := w.task));
    }
  }

  /** Import-level idempotence: if the initial cache already holds every
      data row's three keys, the import completes with zero creations and
      the cache unchanged. */
  lemma ImportIdempotent(rows: seq<Row>, skip: int, names: map<string, string>, keys0: map<string, string>)
    requires WellFormed(DataRows(rows, skip))
    requires Covered(keys0.Keys, SparseFill(DataRows(rows, skip), "", ""))
    ensures var out := ImportCsv(rows, skip, names, keys0);
      out.Completed? && out.st.keys == keys0 && out.st.created == []
  {
    ImportCsvSkipsHeader(rows, skip, names, keys0);
    CoveredRowsCreateNothing(DataRows(rows, skip), names, Start(keys0));
  }

  /** Keys of every issue in a log, whatever its type. */
  ghost function LoggedKeys(cs: seq<Creation>): set<string>
  {
    set i | 0 <= i < |cs| :: cs[i].LookupKey()
  }

  /** After a completed row its epic and task are cached, and its subtask
      was cached already or is the last issue created. */
  lemma RowCovers(row: Row, names: map<string, string>, st: State)
    requires |row| >= Columns && ProcessRow(row, names, st).Completed?
    ensures var out := ProcessRow(row, names, st).st;
      var w := Fill(row, st.epic, st.task);
      && Key(Epic, w.epic) in out.keys
      && Key(Task, w.task) in out.keys
      && (Key(Subtask, w.subtask) in st.keys
          || (|out.created| > 0 && out.created[|out.created| - 1].LookupKey() == Key(Subtask, w.subtask)))
  {
    var w := Fill(row, st.epic, st.task);
    var st0 := st.(epic := w.epic, task := w.task);
    EpicSubtasks(st0, w.epic);
    var r1 := EnsureEpic(st0, w.epic);
    TaskSubtasks(r1.1, r1.0, w.task);
  }

  /** The first row of a completed import, in terms of coverage: if the
      rest of the rows are covered by `out`'s keys and log, so are all. */
  lemma {:induction false} CoversStep(rows: seq<Row>, names: map<string, string>, st: State, out: State)
    requires |rows| > 0 && WellFormed(rows) && ProcessRow(rows[0], names, st).Completed?
    requires Extends(ProcessRow(rows[0], names, st).st, out)
    requires var s1 := ProcessRow(rows[0], names, st).st;
      Covered(out.keys.Keys + LoggedKeys(out.created), SparseFill(rows[1..], s1.epic, s1.task))
    ensures Covered(out.keys.Keys + LoggedKeys(out.created), SparseFill(rows, st.epic, st.task))
  {
    var s1 := ProcessRow(rows[0], names, st).st;
    RowCovers(rows[0], names, st);
    SparseFillCons(rows, st.epic, st.task);
    var w := Fill(rows[0], st.epic, st.task);
    var rest := SparseFill(rows[1..], s1.epic, s1.task);
    var ws := SparseFill(rows, st.epic, st.task);
    var all := out.keys.Keys + LoggedKeys(out.created);
    if Key(Subtask, w.subtask) !in st.keys {
      var n := |s1.created| - 1;
      assert out.created[n] == s1.created[n];
      assert out.created[n].LookupKey() in LoggedKeys(out.created);
    }
    forall i | 0 <= i < |ws|
      ensures Key(Epic, ws[i].epic) in all && Key(Task, ws[i].task) in all && Key(Subtask, ws[i].subtask) in all
    {
      if i > 0 { assert ws[i] == rest[i - 1]; }
    }
  }

  /** After a completed import, every row's epic, task and subtask is either
      in the final cache or among the issues created. */
  lemma {:induction false} CompletedRunCovers(rows: seq<Row>, names: map<string, string>, st: State)
    requires ImportData(rows, names, st).Completed?
    ensures WellFormed(rows)
    ensures var out := ImportData(rows, names, st).st;
      Covered(out.keys.Keys + LoggedKeys(out.created), SparseFill(rows, st.epic, st.task))
    decreases |rows|
  {
    if |rows| > 0 {
      var s1 := ProcessRow(rows[0], names, st).st;
      DataStep(rows, names, st);
      CompletedRunCovers(rows[1..], names, s1);
      WellFormedCons(rows);
      CoversStep(rows, names, st, ImportData(rows[1..], names, s1).st);
    }
  }

  /** The issues of a log as a later search could list them. */
  function Reported(cs: seq<Creation>): (hits: seq<SearchHit>)
    ensures |hits| == |cs|
    ensures forall i :: 0 <= i < |cs| ==> HitKey(hits[i]) == cs[i].LookupKey()
  {
    seq(|cs|, i requires 0 <= i < |cs| => SearchHit(TypeName(cs[i].Kind()), cs[i].summary, FreshKey(i)))
  }

  lemma HitKeysAppend(a: seq<SearchHit>, b: seq<SearchHit>)
    ensures HitKeys(a + b) == HitKeys(a) + HitKeys(b)
  {
    var both := a + b;
    forall k | k in HitKeys(both) ensures k in HitKeys(a) + HitKeys(b) {
      var i :| 0 <= i < |both| && HitKey(both[i]) == k;
      if i >= |a| { assert both[i] == b[i - |a|]; }
    }
    forall k | k in HitKeys(b) ensures k in HitKeys(both) {
      var i :| 0 <= i < |b| && HitKey(b[i]) == k;
      assert both[i + |a|] == b[i];
    }
    forall k | k in HitKeys(a) ensures k in HitKeys(both) {
      var i :| 0 <= i < |a| && HitKey(a[i]) == k;
      assert both[i] == a[i];
    }
  }

  /** One search that meets the hypothesis of the lemmas below: the first
      listing followed by every issue of the log. */
  lemma ListingLogQualifies(response: Option<seq<SearchHit>>, cs: seq<Creation>)
    ensures HitKeys(Listed(response)) + LoggedKeys(cs) == HitKeys(Listed(Some(Listed(response) + Reported(cs))))
  {
    var r := Reported(cs);
    HitKeysAppend(Listed(response), r);
    forall k | k in LoggedKeys(cs) ensures k in HitKeys(r) {
      var i :| 0 <= i < |cs| && cs[i].LookupKey() == k;
      assert HitKey(r[i]) == k;
    }
  }

  /** After a completed import, a cache seeded from any later search that
      lists (in any order, under any keys, among other issues) every issue
      of the first search and every issue created covers every data row. */
  lemma ReseededCovers(response: Option<seq<SearchHit>>, users: seq<User>, rows: seq<Row>, skip: int, response2: Option<seq<SearchHit>>)
    requires Run(response, users, rows, skip).Completed?
    requires HitKeys(Listed(response)) + LoggedKeys(Run(response, users, rows, skip).st.created) <= HitKeys(Listed(response2))
    ensures WellFormed(DataRows(rows, skip))
    ensures Covered(Seed(response2).Keys, SparseFill(DataRows(rows, skip), "", ""))
  {
    var names := NameMap(users);
    var keys0 := Seed(response);
    var data := DataRows(rows, skip);
    ImportCsvSkipsHeader(rows, skip, names, keys0);
    var first := ImportData(data, names, Start(keys0)).st;
    CompletedRunCovers(data, names, Start(keys0));
    CacheDiscipline(rows, skip, names, keys0);
    assert CachedKeys(first.created) <= LoggedKeys(first.created);
    assert first.keys.Keys + LoggedKeys(first.created) <= Seed(response2).Keys;
  }

  /** Idempotence across runs: after a completed import, a second
      construction and import of the same rows, whose search lists every
      issue the first search listed and every issue the first import
      created, completes with zero creations and leaves its cache as
      seeded. */
  lemma ReimportCreatesNothing(response: Option<seq<SearchHit>>, users: seq<User>, rows: seq<Row>, skip: int, response2: Option<seq<SearchHit>>)
    requires Run(response, users, rows, skip).Completed?
    requires HitKeys(Listed(response)) + LoggedKeys(Run(response, users, rows, skip).st.created) <= HitKeys(Listed(response2))
    ensures var again := Run(response2, users, rows, skip);
      again.Completed? && again.st.created == [] && again.st.keys == Seed(response2)
  {
    ReseededCovers(response, users, rows, skip, response2);
    ImportIdempotent(rows, skip, NameMap(users), Seed(response2));
  }
}
