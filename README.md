# Asset inventory dashboard, modelled in Dafny

The dashboard tracks field assets for an electricity distribution
company, such as BMU units. Each asset record is a flat
object: a string `id` plus a value for every column of a schema that the
user can edit. The records live in the browser, are mirrored to a backend
table of `{id, data}` rows, and are kept in step by realtime change
events.

Editors and super admins change records through handlers:
- add a record;
- delete a record;
- set a record's status;
- import a tab- or comma-separated file.

Everyone sees views derived from the same list:
- quantity totals;
- the engineers;
- a search;
- a date-range history with CSV export;
- a grouped bar chart;
- a per-KPI breakdown;
- status badge colours.

Super admins also edit the column schema and the user list.

The model treats the component's state as a class, `Dashboard.App`. Its
fields are the record list, the schema, the users, the current user and
the record the status dialog is open for. Each handler, remote event and
snapshot load is a method that replaces those fields in one atomic step.
The list edits, codecs and views are functions over values. Each of them
is paired with what it promises:
- a round trip (row format, CSV cell quoting);
- an invariant it keeps (unique record ids, unique user names, the
  protected `admin` account, unique column ids);
- or an independent reading (first-match keyword table, sorted and
  distinct engineer list, conservation of chart totals).

`Date.now()`, `parseFloat`/`Number` and `new Date(...)` are parameters:
- A clock is `now: nat` or `now: nat -> nat` (per import line).
- A number parser is `Parser = string -> Option<int>`, where `None` stands
  for NaN.
- A date reader is `Value -> Option<int>`, where `None` stands for an
  invalid date.

Quantities are integers.

Files:
- `wrappers.dfy`: `Option`.
- `strings.dfy`: split, join, trim, lower-case, decimal digits and string
  order.
- `values.dfy`: record values, `||` and `String(...)`.
- `seqs.dfy`: `filter` and `reduce` sums.
- `records.dfy`: the record list, realtime events and local edits.
- `accounts.dfy`: users, login and permissions.
- `schema.dfy`: columns.
- `csv_import.dfy`: file upload.
- `csv_export.dfy`: CSV export and a cell decoder for it.
- `views.dfy`: derived counts, engineers, search, history and engineer
  breakdown.
- `tally.dfy`: chart data and KPI breakdown.
- `status_tone.dfy`: badge colours.
- `dashboard.dfy`: the state and its handlers.

## Model

| member | source | states |
|---|---|---|
| Records.FromRow | index.tsx:258-259 | the record rebuilt from `{id, data}` takes its id from `data` when `data` has one and from the row otherwise; every other field is `data`'s |
| Records.ToRow | index.tsx:345 | the saved row's `data` has no `id` key and every other field of the record; the row id is the record's string id |
| Records.RowRoundTrip | index.tsx:345 | saving a record with a string id as a row and rebuilding it gives the same record |
| Records.RecordRoundTrip | index.tsx:307-310 | rebuilding a row whose data has no `id` key and saving it again gives the same row |
| Records.FilterKeepsUniqueIds | index.tsx:268 | every filter of a list with unique ids has unique ids |
| Records.InsertNew | index.tsx:259-263 | remote INSERT: an id already present leaves the list unchanged; otherwise the record is appended after the unchanged earlier records; the id is present afterwards and unique ids stay unique |
| Records.ReplaceById | index.tsx:264-266 | remote UPDATE: same length and ids at every position; records with the event's id become the new record and all others are untouched; an absent id changes nothing (no insert); unique ids stay unique |
| Records.RemoveById | index.tsx:267-268 | remote DELETE: exactly the records without the id remain, the id is gone, an absent id changes nothing, unique ids stay unique |
| Records.RemoveKeepsOrder | index.tsx:267-268 | removal distributes over concatenation, so the remaining records keep their relative order |
| Records.Apply | index.tsx:256-269 | applying a change event keeps ids unique; an UPDATE keeps the length, an INSERT adds at most one record and a DELETE never adds one |
| Records.ApplyIdempotent | index.tsx:256-269 | a change event delivered twice has the same effect as once |
| Records.UpdateWins | index.tsx:264-266 | after an UPDATE, a position that held the event's id holds the event's record |
| Records.AddRecord | index.tsx:592-602 | the form's fields, with the new id winning over any id in the form, are appended after the unchanged records; a fresh id keeps ids unique |
| Records.SetStatus | index.tsx:620-628 | only records with the selected id get the new status; every other field and every other record are unchanged; ids stay unique |
| Accounts.Permissions | index.tsx:210-211 | editing is allowed exactly for a signed-in super admin or editor; managing users implies editing; nobody signed in may do neither |
| Accounts.FindLogin | index.tsx:477 | no result exactly when no account matches (name ignoring case, exact password); otherwise the first matching account |
| Accounts.AdminLoginIgnoresCase | index.tsx:92-96 | against the default accounts, `ADMIN`/`password` signs in as `admin` and a wrong-case password is refused |
| Accounts.CreateUser | index.tsx:500-508 | a taken name (exact match) leaves the list unchanged, a new one is appended; names stay unique and the admin account stays |
| Accounts.DeleteUser | index.tsx:515-518 | `admin` cannot be deleted; otherwise exactly the users with other names remain; the admin account stays and names stay unique |
| Accounts.DeleteKeepsOrder | index.tsx:517 | deleting distributes over concatenation and a single user stays exactly unless it has the deleted name, so the remaining users keep their order and multiplicity |
| Accounts.UpdateRole | index.tsx:522-525 | demoting `admin` is refused; otherwise users with the name get the role and all other users, names and passwords are unchanged; names stay unique and the admin account stays |
| Schema.InitialColumnsWellFormed | index.tsx:132-147 | the default schema's column ids are unique and none is `id` |
| Schema.ApplyPatch | index.tsx:646-650 | each field the patch sets (caption, type, options) replaces the column's, each field it leaves unset is kept, and the column id never changes; the empty patch changes nothing |
| Schema.RemoveAt | index.tsx:653-656 | the column at the index goes and the rest keep their order; an index out of range removes nothing |
| Schema.RemoveAtKeepsUnique | index.tsx:653-656 | removing a column keeps column ids unique |
| Strings.JoinSplit | index.tsx:546 | joining the pieces of a split with the separator gives the text back |
| Strings.SplitJoin | index.tsx:546 | splitting a join of separator-free pieces gives the pieces back |
| Strings.Trim | index.tsx:550 | the trimmed line starts and ends with non-space and is empty exactly when the line is all white space |
| Strings.TrimIsInfix | index.tsx:550 | the trimmed line is the line with only white space removed from both ends |
| Strings.TrimIdempotent | index.tsx:550 | trimming twice is trimming once |
| Strings.NatStringInjective | index.tsx:554 | different millisecond stamps print as different decimal strings |
| Strings.StrLeTotal | index.tsx:680 | any two names are ordered one way or the other |
| Strings.StrLeTrans | index.tsx:680 | the name order is transitive |
| CsvImport.ParseImport | index.tsx:546-563 | the upload loop (lines, trimming, cells, per-column fill) builds exactly the records of the import specification |
| CsvImport.BuildRecord | index.tsx:552-561 | the per-column fill of one line builds exactly that line's record |
| CsvImport.LineRecordId | index.tsx:554 | a line's record has the id `imp-<stamp>-<line number>` when no column is keyed `id` |
| CsvImport.LineRecordFields | index.tsx:555-561 | a column's field is set exactly when its cell exists, and holds the coerced cell; cells beyond the columns are ignored |
| CsvImport.CoerceIgnoresPadding | index.tsx:557-558 | blanks around a cell never change the stored value; a text column's value has no blanks at either end; a number column always holds the parsed trimmed cell, or 0 when it does not parse |
| CsvImport.ImportCount | index.tsx:546-551 | the header line and blank lines yield nothing and every other line yields exactly one record |
| CsvImport.ImportIdInjective | index.tsx:554 | two import ids are equal only for the same line number |
| CsvImport.RecordsFromUnique | index.tsx:548-563 | the records of one upload have unique ids |
| CsvImport.ImportKeepsUniqueIds | index.tsx:554-570 | appending an upload to a list with unique ids keeps ids unique whenever no existing record has an id the upload generates for one of its non-blank lines |
| CsvImport.NumberColumnImport | index.tsx:546-570 | an upload of a header, two numeric cells and a trailing newline gives two records holding the parsed numbers (0 where parsing fails) |
| CsvExport.Quote | index.tsx:579 | every exported cell starts and ends with a double quote |
| CsvExport.DecodeEscaped | index.tsx:579 | undoing the quote doubling gives the cell text back, whatever follows the closing quote |
| CsvExport.DecodeQuotedJoin | index.tsx:579 | quoted cells joined by commas decode to the cells |
| CsvExport.RowRoundTrip | index.tsx:578-580 | decoding an exported row gives back `String(value)` for every column, or empty for falsy values |
| CsvExport.FalsyExportsEmpty | index.tsx:579 | a missing, empty or zero value exports as `""`; a truthy value exports its `String(...)` |
| CsvExport.RowSingleLine | index.tsx:578-580 | a row with no line break in any cell has no line break |
| CsvExport.ExportLines | index.tsx:577-581 | with single-line cells the output has one header line and one line per record, in order |
| CsvExport.ExportDecodes | index.tsx:577-581 | every data line of the output decodes to its record's cell texts |
| CsvExport.HeaderCaptions | index.tsx:577 | with comma-free captions the header splits back into the column captions |
| Views.KpiPartition | index.tsx:675-678 | the total quantity is the installed, spare and planned quantities plus the quantity of all other statuses |
| Views.KpiWithinTotal | index.tsx:675-678 | with non-negative quantities the three KPI figures add up to at most the total |
| Views.Dedupe | index.tsx:680 | each value once, and exactly the values of the input |
| Views.SortSpec | index.tsx:680 | the sort orders names ascending and keeps distinct names distinct |
| Views.EngineersSpec | index.tsx:680 | the engineer list is sorted, has no repeats and holds exactly the truthy `assignedTo` values |
| Views.AnyColumnMatches | index.tsx:683-687 | a record matches exactly when some column's truthy value contains the lower-cased term |
| Views.SearchSpec | index.tsx:682-688 | a record is found exactly when it is in the list and some column matches; the empty term finds every record with a truthy column |
| Views.SearchKeepsOrder | index.tsx:682-688 | the search distributes over concatenation, so results keep list order |
| Views.HistorySpec | index.tsx:690-698 | no date excludes; a valid date passes exactly when it is on or after a valid start and on or before a valid end, each bound acting alone and an unset or invalid bound imposing nothing; an invalid item date passes |
| Views.EngineerBreakdownSpec | index.tsx:728-735 | the engineer's records are exactly those assigned to them; each status count is the number of the inventory's records with that status assigned to them; the four counts and the records with any other status add up exactly to the records listed |
| Views.BreakdownKeepsOrder | index.tsx:729 | the engineer's records for a concatenation are those for each part, so they keep the inventory order |
| Tally.KeyOrderSpec | index.tsx:701-707 | the dictionary's keys are distinct and are exactly the keys seen |
| Tally.EntriesSpec | index.tsx:701-707 | one entry per key seen, each with that key's total, and the entries' values add up to the values of all records |
| Tally.EntriesConserve | index.tsx:701-707 | the grouped totals add up to the sum over all records |
| Tally.Accumulate | index.tsx:701-707 | the `forEach` into the dictionary, read back as entries, gives exactly the entries of the specification |
| Tally.SortDescSpec | index.tsx:707 | the sort orders entries by value, largest first, and is a permutation |
| Tally.SortDescSum | index.tsx:707 | sorting keeps the sum of the values |
| Tally.TakeLargest | index.tsx:707 | the first 15 of the sorted entries are sorted and none left out is larger than any kept |
| Tally.ChartPairsSum | index.tsx:703-704 | counting gives one per record and summing gives the total quantity |
| Tally.ChartData | index.tsx:700-708 | at most 15 groups, largest first, each a key of some record with its group's total, none left out larger than any shown; all groups together add up to the record count or the total quantity |
| Tally.MaxValue | index.tsx:710 | the bar scale is at least 1 and at least every value, and is 1 or one of the values |
| Tally.KpiBreakdown | index.tsx:712-726 | the card's records grouped by material and model, largest first, a permutation of the groups; the groups add up to the card's figure (installed, spare, planned or total quantity) |
| StatusTone.AnyKeywordSpec | index.tsx:103-108 | a keyword group matches exactly when some keyword in it does |
| StatusTone.KeywordToneIsFirstMatch | index.tsx:103-110 | the if-chain of keyword tests is the first-match reading of the keyword table |
| StatusTone.ToneIsFirstMatch | index.tsx:99-111 | the empty status is neutral; otherwise the tone is that of the first table rule with a keyword the lower-cased status contains |
| StatusTone.FirstMatchIsFirst | index.tsx:103-110 | a rule decides the tone whenever one of its keywords matches and no earlier rule's does |
| Dashboard.InitialDataUnique | index.tsx:149-155 | the five seeded records have unique ids |
| Dashboard.SnapshotOfSaved | index.tsx:305-345 | loading back the rows saved from records with string ids gives the same records |
| Dashboard.App.constructor | index.tsx:167-179 | the seeded records, the default schema and accounts, nobody signed in; the state invariant holds |
| Dashboard.App.OnRealtime | index.tsx:256-269 | the event is applied to the records, nothing else changes, and the state invariant is kept |
| Dashboard.App.LoadSnapshot | index.tsx:303-324 | non-empty rows replace the records (empty rows keep them); a stored schema or user list replaces the current one |
| Dashboard.App.Login | index.tsx:475-491 | success exactly when an account matches; then it is the current user, otherwise the current user stays |
| Dashboard.App.Logout | index.tsx:494-498 | nobody is signed in, so nothing may be edited, and nothing else changes |
| Dashboard.App.AddItem | index.tsx:592-608 | for an editor the form is appended with the decimal timestamp id; otherwise nothing changes; a fresh id keeps the invariant |
| Dashboard.App.DeleteItem | index.tsx:610-616 | for an editor every record with the id goes and the id is gone; otherwise nothing changes |
| Dashboard.App.OpenStatusDialog | index.tsx:965 | the dialog is open for the record and nothing else changes |
| Dashboard.App.QuickStatusUpdate | index.tsx:618-633 | for an editor with a record selected, records with its id get the status and the dialog closes; otherwise nothing changes |
| Dashboard.App.FileUpload | index.tsx:538-574 | for an editor the uploaded records are appended after the existing ones; otherwise nothing changes; the invariant is kept whenever the generated ids are fresh |
| Dashboard.App.Export | index.tsx:576-581 | the export is the CSV of the date-filtered records under the current schema |
| Dashboard.App.CreateUser | index.tsx:500-513 | the user list becomes the create-user result and the invariant is kept |
| Dashboard.App.DeleteUser | index.tsx:515-520 | the user list becomes the delete-user result and the invariant is kept |
| Dashboard.App.UpdateRole | index.tsx:522-527 | the user list becomes the update-role result and the invariant is kept |
| Dashboard.App.AddColumn | index.tsx:640-644 | for a super admin a `custom_<stamp>` text column is appended; otherwise nothing changes; a fresh key keeps the invariant |
| Dashboard.App.UpdateColumn | index.tsx:646-651 | for a super admin the patch is merged into the column at the index; every column keeps its id; otherwise nothing changes |
| Dashboard.App.DeleteColumn | index.tsx:653-657 | for a super admin the column at the index goes; otherwise nothing changes; the invariant is kept |
| Dashboard.App.ResetData | index.tsx:664-672 | once confirmed, the records and columns are the seeded ones, with unique ids and a well-formed schema, whatever came before; users and session are unchanged; otherwise nothing changes |

## Left out

- The JSX rendering, modals, styling, chat panel and PWA install prompt. These are user interface only.
- The backend client: subscribing, upserts and deletes, error messages and alerts, and the interleaving of remote events with local optimistic writes. This is network I/O and concurrency. Each event and handler is one atomic step, and `Dashboard.App.LoadSnapshot` takes the query results as parameters.
- `localStorage`: the session user, saved users, the offline record backup and the database configuration. `handleSaveColumns` only closes the editor and writes the backend. `Dashboard.App.ResetData` models the reset of the records and columns, but not the clearing of storage. The constructor starts from the defaults, as on a first visit.
- The Gemini chat call and its context selection. This is a foreign service.
- The file reader, the Blob download, the clipboard copy and the export file name. These are platform I/O. `Dashboard.App.FileUpload` takes the file's text.
- The add dialog's initial form (index.tsx:465-473) and `handleInputChange`. The form is a parameter of `Dashboard.App.AddItem`.
- Floating-point numbers. Quantities are integers, and `parseFloat`/`Number` are parameters.
- Unicode case folding. `toLowerCase` is modelled on ASCII letters only.
- String order. `sort()` is modelled as code-point order, while JavaScript compares UTF-16 code units.
- Null and boolean field values. Values are strings or numbers.
- Tally.Accumulate: entries come out in first-insertion key order. JavaScript lists integer-like keys first, in numeric order. Grouping keys such as `assetId` or `nos` are often integer-like. Groups with equal totals are then ordered differently by the stable sort. Where such ties straddle the cut at 15 groups (index.tsx:707), JavaScript can keep different groups in the chart than the model does. The dictionary is also a plain object: a group key naming an `Object.prototype` member differs. For `constructor` or `toString`, `data[key] || 0` reads the inherited function, so the group's value becomes a string and the sort and `Math.max` see NaN. For `__proto__` the assignment is ignored and the group disappears. The chart can group by free-text columns such as `remarks`, so such keys can occur. The model gives them ordinary totals. KPI keys contain ` - `, so `Tally.KpiBreakdown` is not affected.
- Tally.ChartData: gives ordinary totals to groups keyed `constructor`, `toString`, `__proto__` or another `Object.prototype` member, and orders tied integer-like keys by first insertion. See the Tally.Accumulate line.
- Dashboard.App.UpdateColumn: requires the index to be a row of the schema. The editor only passes row indices. An out-of-range index would add a partial column in JavaScript.
- Records.ReplaceById: a realtime UPDATE for an id that is not present is ignored, as index.tsx:264-266 does.
- Views.HistorySpec: dates are an abstract reader into integers, standing for `new Date(...)`. An invalid item date passes the filter, as in the code, because every comparison with it is false.
- StatusTone.ToneOf: the CSS class strings are abstracted into seven tones.
- Dashboard.App.Login: does not model the Gemini key storage or the backend refresh on login.
