# jira_issue import, modelled in Dafny

`jira.py` turns a planning spreadsheet into a three-level hierarchy of
issues: an epic, its tasks, and each task's subtasks. Each CSV row names an
epic, a task, a subtask, a cost in hours, an assignee display name and a
priority. Blank epic and task cells carry the previous row's value forward,
and a blank subtask cell means "the task itself". Before the import, the
`jira_issue` constructor does two things. It seeds a cache from one search
of the project's existing issues; the cache maps the type name followed by
the summary to an issue key. It also builds a map from display-name prefixes
to login names. The import creates an epic or a task only when its
concatenated key is not cached, and then caches the new key. A subtask is
created whenever its key is not cached, and its key is never recorded.

The model is a pure fold over `seq<seq<string>>`. It threads four values
through the rows: the carried epic title, the carried task title, the cache,
and the log of creations. The backend is an abstract key generator: the
n-th creation of a run gets the key `FreshKey(n)` and is appended to the
log.

Modules:

- `Wrappers`: `Option`.
- `Text`: Python's `str.strip()`, `split('-')[0]` and `int()`, and the
  decimal spelling of integers.
- `Dict`: repeated `d[k] = v`, where the last pair wins.
- `IssueCache`: type names, the concatenated key, and seeding from a
  search.
- `Users`: the display-name map.
- `SubtaskFields`: assignee and cost.
- `Importer`: the row fold.
- `ImporterProofs`: what a run promises.

## Model

| member | source | states |
|---|---|---|
| Text.StripSpec | jira.py:44-49 | `strip()` leaves the contiguous middle of the cell. Everything cut from either end is whitespace, and the result neither starts nor ends with whitespace. |
| Text.StripEmptyIff | jira.py:44-46 | A cell strips to the empty string exactly when it is all whitespace. A non-empty cell of only whitespace passes the `!= ''` test, so it replaces the carried title with "". |
| Text.StripIdempotent | jira.py:44-49 | Stripping a stripped cell changes nothing. |
| Text.BeforeHyphen | jira.py:217 | `split('-')[0]` is the longest prefix without a hyphen. It is all of the string or is followed by a hyphen, and nothing is trimmed. |
| Text.ParseIntSpec | jira.py:161 | `int()` accepts exactly an optional sign followed by ASCII digits, and the sign of the text is the sign of the value. Printing the value back gives the literal's normal spelling: `str(int(s))` drops a `+` sign and leading zeros, and `-0` becomes `0`. |
| Text.ParseShowInt | jira.py:161 | `int(str(i)) == i` for every integer. |
| Dict.Assign | jira.py:198-202 | Assigning pairs in order gives the old keys plus every pair's key. The surviving value of a key is the one from its last pair, and keys outside the pairs keep their old value. |
| IssueCache.KeyInjective | jira.py:51-62 | With the three configured type names, equal concatenated keys mean equal type and equal summary. |
| IssueCache.Seed | jira.py:197-202 | The seeded cache has exactly the listed issues' keys. A key's value comes from the last issue listed under it, and a response without an issue list leaves the cache empty. |
| Users.NameMap | jira.py:215-218 | The map's keys are exactly the users' display-name prefixes. The value of a prefix is the login name of the last user with that prefix. |
| SubtaskFields.AssigneeFromUsers | jira.py:129-131 | The assignee sent is the login name of the last user whose prefix equals the cell, or the cell unchanged when no user's prefix does. |
| SubtaskFields.PaddedKeyUnreachable | jira.py:48 | A display-name prefix that ends in whitespace never matches a stripped assignee cell. |
| SubtaskFields.CostMinutesSpec | jira.py:126-161 | A blank cost is 0 minutes. A non-blank cost is accepted exactly when it is a signed decimal literal. It then gives sixty minutes per hour the literal spells, whatever its sign or leading zeros: the hours, printed back, are the literal's normal spelling. |
| SubtaskFields.CostOfWholeHours | jira.py:161 | A cost cell spelling `h` hours gives `h * 60` minutes. |
| Importer.FreshKeyInjective | jira.py:121-122 | The backend model hands out distinct keys to distinct creations of a run. |
| Importer.EnsureEpic | jira.py:51-55 | A cached epic is reused and nothing changes. Otherwise exactly one epic is created, and the key the backend returned for it is both cached and returned; no other entry changes. |
| Importer.EnsureTask | jira.py:57-61 | The same as for epics: a new task's backend key is cached and returned. The created task is linked to the epic key it is given, and the lookup uses the task title only. |
| Importer.EnsureSubtask | jira.py:62-63 | A cached subtask leaves everything unchanged. Otherwise a subtask is created with the mapped assignee and the cost in minutes, and its key is not cached. A non-integer cost aborts with the cache and log as they were. |
| Importer.ProcessRow | jira.py:44-63 | A row with fewer than six cells aborts and changes nothing. Otherwise the carried titles become the row's filled titles, and the cache and log only grow. |
| Importer.ImportData | jira.py:40-63 | Over any number of rows, whether the import completes or aborts, no cache entry is removed or overwritten, and the log is only appended to. |
| ImporterProofs.HeaderRowsIgnored | jira.py:40-43 | The reading loop ignores every row whose 1-based count is at most `skip_line`, then processes every later row, in order, as a data row. |
| ImporterProofs.ImportCsvSkipsHeader | jira.py:34-43 | `import_csv` is the data-row fold over the rows after the first `skip_line`, starting from empty carried titles. |
| ImporterProofs.CarriesForward | jira.py:44-45 | For the epic column and the task column, row i of the filled sheet (`SparseFill`) carries the stripped cell of the last row at or before i whose cell is non-empty. If every cell up to i is empty, it carries the initial value. |
| ImporterProofs.SubtaskDefaultsToTask | jira.py:46-49 | In each row of the filled sheet (`SparseFill`), a blank subtask cell gives the row's task title after that row updated it; a non-blank one gives the stripped cell. Cost, assignee and priority are the row's cells, stripped. |
| ImporterProofs.RowEffect | jira.py:44-63 | One row creates its epic exactly when that epic is uncached, then its task exactly when uncached, linked to the epic's key. That key is the cached one, or the key the backend returned for the epic created in this row; the task's key is likewise the cached one or the new task's backend key. Then it creates its subtask exactly when uncached, under the task's key, unless the cost is not an integer, which aborts. Afterwards the cache holds the old keys plus the epic's and the task's, and nothing else. |
| ImporterProofs.CachedTaskNotCreated | jira.py:57-61 | A row whose task title is cached creates no task. |
| ImporterProofs.TaskReusedAcrossEpics | jira.py:57-61 | When the next row has the same task title as a completed row, it creates no task, even under a different epic. |
| ImporterProofs.CreateKeepsDiscipline | jira.py:51-59 | Creating one uncached issue keeps the cache discipline described under CacheDiscipline. |
| ImporterProofs.RowKeepsDiscipline | jira.py:44-63 | One row keeps that discipline. |
| ImporterProofs.ImportKeepsDiscipline | jira.py:40-63 | Any run of data rows keeps that discipline. |
| ImporterProofs.CacheDiscipline | jira.py:51-63 | After a completed or aborted import:<br>- the cache is the initial keys plus the keys of the epics and tasks created;<br>- no initial entry is removed or overwritten;<br>- every creation's key was absent from the initial cache;<br>- no epic title and no task title is created twice;<br>- the i-th issue created, if an epic or a task, is cached under the key the backend returned for it. |
| ImporterProofs.AliasedHitBlocksCreation | jira.py:197-202 | Because the key is a plain concatenation, a listed issue whose type name is a configured type name plus the first character of `s`, and whose summary is the rest of `s`, stands in for the issue of that type titled `s`. The import never creates that issue. |
| ImporterProofs.SubtasksNeverCached | jira.py:62-63 | A subtask key is in the final cache exactly when it was in the initial one. |
| ImporterProofs.SubtaskPerUncachedRow | jira.py:62-63 | A completed import creates, in row order, one subtask for every row of the filled data rows (`SparseFill`) whose subtask key was not in the initial cache, and no other subtask. A repeated title is created again each time. |
| ImporterProofs.CoveredRowsCreateNothing | jira.py:51-63 | Rows whose epic, task and subtask keys are all cached complete, create nothing and leave the cache unchanged. |
| ImporterProofs.ImportIdempotent | jira.py:34-63 | If the initial cache holds the three keys of every row of the filled data rows (`SparseFill`), `import_csv` completes with zero creations and the cache as it was. |
| ImporterProofs.RowCovers | jira.py:51-63 | After a completed row, its epic and task are cached. Its subtask was cached already or is the last issue created. |
| ImporterProofs.CompletedRunCovers | jira.py:40-63 | After a completed import, the three keys of every row of the filled data rows (`SparseFill`) are in the final cache or among the issues created. |
| ImporterProofs.ReseededCovers | jira.py:197-202 | Suppose a later search lists, in any order and under any issue keys, every issue of the first search and every issue the import created, possibly among others. Then the cache it seeds holds every data row's three keys. |
| ImporterProofs.ReimportCreatesNothing | jira.py:20-63 | Re-running construction and import after a completed import creates nothing, provided the second search lists every issue of the first search and every issue created, in any order and possibly among others. The cache stays as seeded. |

## Left out

- HTTP requests, `json.loads`, `print` and the `config` imports are not modelled. Creating an issue is the abstract step `Issue`, which appends to a log and returns `FreshKey(n)`. The search response and the user list are inputs.
- Opening the file and `csv.reader` tokenisation are not modelled: the input is already a sequence of rows of cells.
- `delete_issue`, `test` and the `__main__` argument handling are not modelled. They hold no import logic.
- The constructor sets `token_headers` twice and never sets `jira_domain`, which the request methods read. These are defects of the HTTP plumbing, so they are outside the model.
- A backend answer without a `key`, or an error response, is not modelled. Every creation succeeds.
- The `'Medium'` default of `create_sub_task` is not modelled, because `import_csv` always passes the priority cell, even when it is empty. The priority is carried as the stripped cell.
- `Text.ParseIntSpec`: Python's `int()` also accepts underscores between digits and non-ASCII decimal digits. The model accepts only an optional `+` or `-` followed by ASCII digits. The cell is already stripped, so surrounding whitespace does not arise.
- `ImporterProofs.ReimportCreatesNothing`: the search asks for at most 1500 issues, and the lemma assumes the response lists all of them.
- `ImporterProofs.CompletedRunCovers`: an aborted import never processes the rows after the failing one, so those rows cache and create nothing. The coverage and subtask lemmas therefore speak only of completed imports, while `CacheDiscipline` covers aborted ones too.
- Three behaviours of the code that a reader might not expect are modelled as written:
  - The cache key is the plain concatenation of type name and summary, not a pair. `AliasedHitBlocksCreation` shows the consequence.
  - The display-name prefix is not trimmed. `PaddedKeyUnreachable` shows the consequence.
  - A search response without `issues` silently leaves the cache empty and raises nothing.
