# issues-log-lite in Dafny

A model of the core of issues-log-lite, a small Flask application for logging
issues against organisations. Issues carry a reporter, an optional owner, a
status, an importance, a report date, an optional target date and a manual
display order, and can be commented on. The model covers:

- the data it keeps: organisations, issues and comments, with their
  uniqueness, defaults and foreign keys, and their nullability as the routes
  produce it;
- the routes that change data: create, update and delete an issue, add a
  comment, create and delete an organisation, drag-and-drop reordering, and
  CSV import;
- the routes that read data: the filtered list view, its filter options, and
  the CSV export with its file name;
- the one-off migration that adds and back-fills the `display_order` column.

The database is one `Store.IssueStore` object. Its three tables are maps from
id to record, and each table has a counter for the next id. Each route that
changes data is one method. A method that fails leaves the store as it was.
Clock reads are parameters: `today` is a `Dates.Date` and `now` is an integer
timestamp.

Modules, one per concern:

- `Wrappers`: `Option`.
- `Dates`: calendar dates, the `YYYY-MM-DD` printer and parser.
- `Models`: the records, the error kinds and the integrity rules, with lemmas
  showing that each elementary change keeps those rules.
- `Sorting`: a table scan in id order, and a sort by a two-part key.
- `Query`: the filter and the two orderings.
- `Requests`: what a JSON request body becomes.
- `Reorder`: the reorder fold.
- `CsvImport`: row mapping and find-or-create of organisations.
- `Export`: CSV rows and the file name.
- `Store`: the store class.
- `Migration`: the migration and its issue table.

## Model

| member | source | states |
|---|---|---|
| Dates.FormatDate | app.py:270 | a printed date is ten characters: four digits reading back as the year, a dash, two digits reading back as the month, a dash, two digits reading back as the day |
| Dates.ParseDate | app.py:106-107 | a parsed date is a real calendar date, and printing it gives back exactly the accepted text |
| Dates.DigitsRoundTrip | app.py:270 | a digit string is the zero-padded decimal form of its value at its own width |
| Dates.FormatThenParse | app.py:270 | every valid date, printed as `YYYY-MM-DD`, parses back to the same date |
| Dates.ParseDateIff | app.py:323 | `ParseDate(s) == Some(d)` exactly when `d` is valid and prints as `s` |
| Models.IssueCountPositive | app.py:199-200 | the issue count of an organisation is positive exactly when some issue references it |
| Models.AddOrganizationKeepsInvariant | models.py:16 | adding an organisation under a fresh id with an unused name keeps names unique and all references valid; the name set grows by that name |
| Models.RemoveOrganizationKeepsInvariant | models.py:25 | removing an organisation that no issue references keeps every foreign key valid |
| Models.PutIssueKeepsInvariant | models.py:19-33 | storing an issue with valid dates and a valid organisation reference keeps the integrity rules |
| Models.RemoveIssueKeepsInvariant | models.py:37 | removing an issue together with its comments leaves no comment pointing at a missing issue |
| Models.AddCommentKeepsInvariant | models.py:35-40 | a comment on a stored issue keeps the integrity rules |
| Sorting.KeysAscending | app.py:73 | the scan lists each id of the set exactly once, in strictly increasing order |
| Sorting.Sort | app.py:71 | the result is a permutation of the input, sorted by the two-part key |
| Sorting.SortedRespectsStrictOrder | migrate_db.py:34 | in a sorted sequence, an id with a strictly smaller key stands earlier |
| Query.Holds | app.py:64-68 | the search clause holds exactly when the text occurs somewhere in the title, the description or the reporter |
| Query.ContainsIff | app.py:64-68 | the substring test holds exactly when the text occurs at some position |
| Query.ParseId | app.py:61-62 | text converts to an id exactly when it is a non-empty digit string; the id is the string's decimal value, and the string is that value zero-padded to its width |
| Query.ParseIdOfDecimal | app.py:242-243 | the decimal form of an id selects exactly that organisation |
| Query.MatchesIff | app.py:57-68 | an issue is selected iff each non-empty argument equals its column (status, owner, organisation) and a non-empty search text occurs in title, description or reporter |
| Query.NoFilterMatchesAll | app.py:57-63 | with every argument empty, every issue is selected |
| Query.ListView | app.py:71-73 | the list holds each selected issue exactly once, sorted by (display order, report date) |
| Query.ExportView | app.py:252-253 | the export holds each selected issue exactly once, sorted by report date |
| Query.InViews | app.py:57-73 | an id is a row of either view exactly when it is a stored issue the filter selects |
| Query.ViewsSameIssues | app.py:236-253 | the list and the export show the same issues, as many as the filter selects |
| Query.NoFilterShowsAll | app.py:55-73 | the unfiltered list shows every stored issue exactly once |
| Query.ListViewOrder | app.py:71 | of two list rows, the earlier has a smaller display order, or an equal one and a report date no later |
| Query.ExportViewOrder | app.py:252 | of two export rows, the earlier has a report date no later, whatever the display orders |
| Query.StatusOptions | app.py:76 | choosing an offered status as the status filter shows at least one issue; a non-empty status is offered exactly when filtering by it shows some issue |
| Query.OwnerOptions | app.py:77 | choosing an offered owner as the owner filter shows at least one issue; a non-empty owner is offered exactly when filtering by it shows some issue, so NULL, which no filter selects, is never offered |
| Query.IssueCountIsFilterCount | app.py:199 | the number of issues that blocks deleting an organisation equals the number of issues the list shows when filtered by that organisation's id |
| Requests.ParseDateArg | app.py:106-107 | a date argument that is accepted yields a valid date |
| Requests.ParseDateArgIff | app.py:129 | a date argument fails exactly when it is non-empty text that is not a date, and reports that text; no text or `""` means no date; a printed date is read back |
| Requests.NewIssue | app.py:98-108 | a created issue has valid dates |
| Requests.NewIssueOutcome | app.py:98-108 | creation fails exactly when title or reporter is missing or a date is unreadable, and reports the first failure in argument order: title, reporter, report date, target date |
| Requests.NewIssueFields | app.py:98-108 | a created issue carries the given title and reporter, and each given description, owner, organisation, status and importance. Missing fields take their defaults: `""` description, no owner or organisation, `Open`, `Medium`, display order 0, report date today. Given dates are stored as parsed and read back as the text |
| Requests.UpdatedIssue | app.py:122-130 | an updated issue has valid dates |
| Requests.UpdateFields | app.py:122-130 | an update fails only on an unreadable target date. Each given field replaces the old value and each omitted one keeps it. The target date becomes the parsed date when one is given and is cleared otherwise. The report date and display order never change, and the update time is refreshed |
| Requests.EmptyUpdate | app.py:129-130 | an empty body clears the target date and refreshes the update time, and changes nothing else |
| Requests.UpdateIdempotent | app.py:122-130 | applying the same update twice equals applying it once |
| Requests.NewComment | app.py:162-166 | a built comment belongs to the issue it was posted on |
| Requests.NewCommentOutcome | app.py:162-166 | a comment fails exactly when author or body is missing (author reported first); otherwise it carries them |
| Reorder.Reordered | app.py:370-374 | reordering neither adds nor removes issues |
| Reorder.LastIndex | app.py:370-373 | the position returned holds the id, and no later position does |
| Reorder.ReorderedAt | app.py:370-374 | a listed issue ends with its last position as display order and a fresh update time; an unlisted issue is unchanged |
| Reorder.ReorderKeepsInvariant | app.py:370-376 | reordering keeps the integrity rules |
| Reorder.ReorderExample | app.py:370-374 | `[3, 1, 2]` gives issues 3, 1, 2 the display orders 0, 1, 2 |
| Reorder.RepeatedIdLastWins | app.py:370-374 | `[5, 5]` leaves issue 5 with display order 1 |
| CsvImport.RowMapLookup | app.py:305 | with distinct header names, each name maps to its own cell |
| CsvImport.RowMapMissing | app.py:305 | a name absent from the header is no key of the row |
| CsvImport.OrganisationPrecedence | app.py:311 | a non-empty `Organisation` cell wins; otherwise the `Organization` cell, or `""` when there is none |
| CsvImport.DateCell | app.py:320-332 | a date cell gives a date exactly when it exists and parses, and that date prints as the cell; an empty or malformed cell raises nothing |
| CsvImport.ImportedIssue | app.py:334-344 | the built issue has valid dates, the resolved organisation, display order 0 and the current update time |
| CsvImport.ImportFieldRules | app.py:320-344 | a present Title, Description, Reporter, Status or Importance column gives its cell, even `""`; a missing one takes its default (`""`, `Open`, `Medium`). An empty or missing owner is NULL, and any other owner cell is stored. An absent or unreadable report date is today, and an absent or unreadable target date is NULL |
| CsvImport.FirstNamed | app.py:313 | the id found carries the name; when none is found, no listed organisation carries it |
| CsvImport.FindOrgByName | app.py:313 | the lookup finds an organisation carrying the name, and finds none exactly when the name is unused |
| CsvImport.ResolveOrg | app.py:310-317 | names stay unique, old organisations stay unchanged and new ids come from the counter. The name set grows by the row's name. An empty name gives no organisation, a known name changes nothing, and otherwise the id returned carries the name |
| CsvImport.ResolveExisting | app.py:313 | a name already present resolves to the organisation carrying it, with nothing created |
| CsvImport.ResolveNew | app.py:314-317 | a new name creates one organisation under the next id and resolves to it |
| CsvImport.ImportBatch | app.py:307-346 | the batch keeps names unique and ids below the counter, and builds one issue per row |
| CsvImport.ImportBatchSnoc | app.py:308-346 | one more row extends the batch by exactly that row's organisation and issue |
| CsvImport.ImportBatchExtends | app.py:313-317 | the batch keeps every existing organisation unchanged, and what it creates has ids from the counter on |
| CsvImport.ImportBatchNames | app.py:311-317 | the names after the batch are the old names plus the names the rows supply |
| CsvImport.ImportBatchIssues | app.py:334-346 | issue `j` is built from row `j`. It has no organisation when the row names none, and otherwise an organisation of the batch with exactly that name |
| CsvImport.TwoRowsOneOrganization | app.py:313-317 | two rows naming the same new organisation create it once and both refer to it |
| Export.ExportRow | app.py:264-275 | a data row has nine cells |
| Export.ExportRowFields | app.py:264-275 | each cell holds its column: text as stored, `""` for a missing description, owner, organisation or target date, and dates that read back as the issue's dates |
| Export.Rows | app.py:263-275 | there is one row per issue of the view, in view order |
| Export.ExportCsv | app.py:258-275 | the file is the header plus one nine-cell row per selected issue |
| Export.ExportCsvRow | app.py:262-275 | line `k` of the file is the row of the `k`-th issue of the export view |
| Export.ExportDatesAscending | app.py:252-275 | the report-date cells of the file ascend from line to line |
| Export.ExportFilename | app.py:280-281 | the file name has 21 characters |
| Export.ExportFilenameParts | app.py:280-281 | the file name is `issues_`, then text that parses as today, then `.csv` |
| Export.ReadBackCells | app.py:259-260 | read under its own header, an exported row has every column by name except `Reporter` and `Organization` |
| Export.ExportThenImport | app.py:311-344 | importing an exported row creates no organisation and gives back the issue under its own organisation, except that: the reporter is lost; a missing description comes back `""`; an empty owner comes back NULL; an organisation named `""` is dropped; display order and update time are those of a new issue |
| Store.NumberedAt | app.py:349-350 | issue `j` of the batch is stored under `start + j`, and no other id is used |
| Store.AddNumberedSnoc | app.py:349-350 | storing one more issue under the next id extends the numbered map by it |
| Store.ImportKeepsInvariant | app.py:308-351 | a committed batch keeps the integrity rules and keeps ids below the counters |
| Store.MapRows | app.py:308-346 | the first import loop computes exactly the batch: organisations, counter and issues |
| Store.AddAll | app.py:349-350 | the second import loop adds the batch under consecutive new ids and leaves every other issue as it was |
| Store.IssueStore.constructor | models.py:14-41 | the new store is empty and meets the integrity rules |
| Store.IssueStore.CreateIssue | app.py:95-113 | when the body is valid and the organisation exists, the built issue is stored under a fresh id, which is returned. A missing field or unreadable date gives its error, and an unknown organisation gives a foreign-key error; on either, nothing changes |
| Store.IssueStore.UpdateIssue | app.py:117-133 | an unknown id is not found. Otherwise the issue is replaced by its update, unless the update fails or names an unknown organisation, in which case nothing changes |
| Store.IssueStore.DeleteIssue | app.py:145-154 | an unknown id is not found. Otherwise the issue and exactly its comments are removed, and nothing else changes |
| Store.IssueStore.AddComment | app.py:158-171 | an unknown issue is not found; a missing author or body is an error; otherwise the comment is stored under a fresh id |
| Store.IssueStore.CreateOrganization | app.py:177-191 | a missing name is an error; a name already used fails with name-exists and changes nothing; otherwise one organisation is added under a fresh id and the name set grows by that name |
| Store.IssueStore.DeleteOrganization | app.py:196-209 | an unknown id is not found. While N ≥ 1 issues reference the organisation, the delete fails, reporting its name and N, and nothing changes. Otherwise exactly that organisation is removed |
| Store.IssueStore.ReorderIssues | app.py:363-377 | an empty list fails and changes nothing; otherwise the issues become the reorder of the list and nothing else changes |
| Store.IssueStore.ImportCsv | app.py:292-354 | with no file or an empty file name, or a name not ending in `.csv`, nothing changes. Otherwise the batch's organisations are stored and its issues are added under consecutive new ids. The count reported is the number of rows |
| Migration.MigrationOrder | migrate_db.py:34-35 | the order lists every issue once, oldest report date first |
| Migration.MigrationOrderFacts | migrate_db.py:34-35 | the order has one entry per issue, covers exactly the stored ids, and repeats none |
| Migration.NumberInOrder | migrate_db.py:31-38 | every issue starts at the column default 0, and the issue at position `t` then gets `t` |
| Migration.BackFillNumbersOnce | migrate_db.py:34-38 | the numbering by position in the date order uses values in `0 .. n-1` and no two issues share one, so each value is used exactly once |
| Migration.BackFillFollowsDates | migrate_db.py:34-38 | in that numbering, an issue reported strictly earlier gets a strictly smaller display order |
| Migration.InDateOrderIsBackFilled | migrate_db.py:34-38 | the numbering the loop writes meets the migration's promise: an injective numbering into `0 .. n-1` in which strictly earlier reports come first |
| Migration.TiesEitherWay | migrate_db.py:34 | the promise leaves issues of the same date in either order, as `ORDER BY date_reported` alone does |
| Migration.IssueTable.Migrate | migrate_db.py:14-43 | with no database, or with the column already present, nothing changes. Otherwise the column is added and back-filled: each issue gets a distinct value in `0 .. n-1` and strictly earlier reports get smaller values. The dates are untouched, and the count reported is the number of issues |
| Migration.MigrateTwice | migrate_db.py:27-43 | a second run finds the column and changes nothing, so the migration is idempotent |

## Left out

- HTTP, sessions and presentation are not modelled. This covers routing, JSON responses and status codes, redirects, `flash`, templates, the password gate (`require_auth`, `login`, `logout`) and the read-only views `edit_issue_form` and `manage_organisations`. They are page glue around the operations above.
- `init_db` and the unused `User` model are not modelled: they are sample data and a table nothing reads.
- Clock reads (`date.today`, `datetime.now`, `datetime.utcnow`) are parameters. The module-load-time default of `date_reported` is not modelled, because every route sets that field.
- `created_at` is dropped. `updated_at` is kept only as a refreshed timestamp.
- Dates.ParseDate: accepts only the strict `YYYY-MM-DD` form, years 1 to 9999. `strptime` also accepts one-digit months and days such as `2024-1-5`, a space-padded day such as `2024-01- 5`, and non-ASCII decimal digits; those parse in the source and are rejected here.
- Query.Holds, Query.MatchesIff: the text filter is a case-sensitive substring test. SQLite's `LIKE` behind `contains` ignores ASCII case, and treats `%` and `_` in the search text as wildcards.
- Query.ParseId: the organisation argument selects an id only when it is a plain digit string. SQLite's coercion of other numeric text (a sign, spaces, `1.0`) is not modelled.
- Store.IssueStore.CreateIssue, Store.IssueStore.UpdateIssue: foreign keys are treated as enforced. An issue naming an unknown organisation is refused with `ForeignKeyViolation`. SQLite does not enforce foreign keys unless configured to, so the source may store such an issue.
- Ids come from counters and are never reused. SQLite's rowid can reuse the id of a deleted highest row.
- The order of issues with equal sort keys is not asserted. It is unspecified in SQL, both in the views and in the migration. The model's own sort breaks ties by ascending id; the contracts of the views and of `Migration.IssueTable.Migrate` do not depend on that.
- The CSV format itself is not modelled: quoting, escaping, newlines and UTF-8 decoding. Import rows arrive as maps from header name to cell. Short rows, whose missing cells `DictReader` fills with NULL, are not modelled.
- JSON bodies are objects whose fields have the expected types. A JSON `null` for a non-null column (title, reporter, comment author or body) is not modelled. Neither is a `null` for `status` or `importance`: those columns are nullable, and `update_issue` stores NULL there when the body says `null`, but the model keeps every issue's status and importance as text. The columns `date_reported` and `display_order` are nullable too, and the model keeps them non-NULL, which every route that writes them does. A body that is not an object, and string ids in a reorder list are not modelled either. Neither is the resulting database error or rollback (`create_organization` and `reorder_issues` catch these).
- Exceptions part-way through an operation are not modelled. Each operation is atomic, so a failing migration never leaves a partial back-fill. This matches its single commit after the loop.
- The `GET` of the import route and the not-`.csv` branch only render the upload form. The model returns `NotCsv` and changes nothing.
- Concurrent requests are not modelled.
- The export's `''` for a missing report date is unreachable, because the model's report date is never NULL.
- The migration's view of the table is only the report date and display order of each issue. The `PRAGMA` and `ALTER TABLE` mechanics and the printed messages are not modelled.
