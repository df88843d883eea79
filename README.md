# Organizer-App core, modelled in Dafny

This project models the checkable core of the Organizer-App, a small Java
desktop organizer for tasks, memos and a duty roster. It proves properties
of that model. It covers these parts:

- **The duty-roster import** (`ExcelRosterReader.readRoster`, `DaySchedule.addAssignment`).
  The sheet is the sequence of its rows. Each row is its cells by column; an absent cell is `None`.
  The header row names the time slots from column 1 on.
  Every later row whose column-0 cell converts to a date becomes one day schedule.
  A day schedule is an insertion-ordered map from slot label to the names in that slot's cell, split on `/`.
- **The CSV file of tasks** (`TaskCSVHandler`). A file is its sequence of lines.
  Saving writes a header line and one `;`-joined line per task.
  Loading skips the first line and every line that does not split into nine fields, and decodes the rest field by field.
  A decoding error ends the whole load.
- **Memos** (`Memo`, `Memo.Builder`). The builder validates the mandatory content.
  There are two build paths: a fresh id with the current time, or an id and a time stamp read back from text.
  Also covered: the four-field CSV row and its reconstruction by `fromCsv`.
- **Tasks** (`Task`): the constructors, the done flag, the priority setter and the six-field export.
- **The six task sorts** (`ArrangeTaskList`). Each is an in-place stable sort of an array of tasks.
  Each is proved sorted by its comparator, a permutation of its input, and stable.
- **The id counter** (`IDGenerator`), including the wrap-around of Java's `long`.
- **The `Priority` and `Category` enums**: their levels, labels, names and `valueOf`.

Where the model keeps Java's `null`, it is `None` of `Option`: due dates, reminders, the memo's title and content, and the builder's unset time stamp. Every other reference that Java lets be null is a non-null type here (see "## Left out"). An exception that reaches the caller is `Failure` of `Result` (module `Wrappers`).
Two modules model the library behaviour that the code relies on:

- `JavaText`: `trim`, `isBlank`, `split` with a one-character separator, `join`, `Long.parseLong`, `String.valueOf`, `Boolean.parseBoolean` and ASCII case folding.
- `Temporal`: `LocalDate`/`LocalDateTime` and their ISO text forms.

Three more modules hold shared pieces:

- `StableSort`: a stable insertion sort on items with integer-sequence keys, with its proofs.
- `Outcomes`: the "skip, fail or keep each item" run that both loaders share.
- `Sequences`: generic slicing facts.

State that Java changes in place is a Dafny class with `modifies` frames:
`Tasks.Task`, `Memos.Memo`, `Memos.Builder`, `Ids.IdGenerator` and `Rosters.DaySchedule`.
The sorts work on an `array<Task>`.
Loops in the source are `for`/`while` loops with invariants. Each such method is proved equal to a specification function, and the properties are proved about that function as lemmas.

Three behaviours of the code a reader may not expect; the model follows the code:

- **Nulls in the sorts.** The comparators do not place a missing due date last; they throw on it. The sorts by due date therefore require the due dates they compare (`SortByDueDate`, `SortByPriorityThenDate`).
- **Empty name pieces.** A cell piece that is empty after trimming is not discarded; it is added as an empty name (`Rosters.BlankPiece`).
- **Absent due dates in the export.** `getExportData` writes an absent due date as the text `"null"`, not as an empty field (`Tasks.Task.ExportData`).

## Model

All source paths below are relative to the repository root.

| member | source | states |
|---|---|---|
| JavaText.TrimMeaning | app/src/main/java/de/organizer/service/ExcelRosterReader.java:100 | `trim` returns the infix of its input between a prefix and a suffix of characters up to U+0020; the result neither starts nor ends with such a character |
| JavaText.TrimStartMeaning | app/src/main/java/de/organizer/service/ExcelRosterReader.java:100 | the leading pass drops exactly the run of trimmable characters that begins the text |
| JavaText.TrimEndMeaning | app/src/main/java/de/organizer/service/ExcelRosterReader.java:100 | the trailing pass drops exactly the run of trimmable characters that ends the text |
| JavaText.TrimEmpty | app/src/main/java/de/organizer/service/ExcelRosterReader.java:100-106 | trimming gives "" exactly when every character is trimmable, both directions |
| JavaText.TrimKeeps | app/src/main/java/de/organizer/service/ExcelRosterReader.java:110 | text that neither starts nor ends with a trimmable character is its own trim |
| JavaText.SplitAllMeaning | app/src/main/java/de/organizer/service/ExcelRosterReader.java:108 | the pieces between separators hold no separator, and joining them with it gives the text back |
| JavaText.DropTrailingEmptyMeaning | app/src/main/java/de/organizer/service/ExcelRosterReader.java:108 | `split` removes exactly the trailing run of empty pieces: the rest is a prefix whose last piece is not empty |
| JavaText.SplitMeaning | app/src/main/java/de/organizer/service/ExcelRosterReader.java:108 | no piece of a split holds the separator; text without the separator is its own only piece; otherwise the last piece, if any, is not empty |
| JavaText.SplitAllJoin | app/src/main/java/de/organizer/io/TaskCSVHandler.java:61 | splitting at every separator undoes `String.join` when no piece holds the separator |
| JavaText.SplitJoin | app/src/main/java/de/organizer/io/TaskCSVHandler.java:61 | `split` undoes `String.join` when no piece holds the separator and the last piece is not empty |
| JavaText.FormatLong | app/src/main/java/de/organizer/model/Task.java:50 | `String.valueOf(long)` is digits without leading zeros, with a leading minus exactly for negative values |
| JavaText.ParseLong | app/src/main/java/de/organizer/io/TaskCSVHandler.java:64 | `Long.parseLong` of an optional '+' or '-' followed by at least one digit gives the signed decimal value when it is in the range of `long`; every other text, the empty one included, is a NumberFormatException |
| JavaText.ParseFormatLong | app/src/main/java/de/organizer/model/Memo.java:48 | `Long.parseLong` reads `String.valueOf(id)` back to the id |
| JavaText.FoldCase | app/src/main/java/de/organizer/service/ArrangeTaskList.java:20 | the case folding maps A-Z to a-z and leaves every other character alone |
| JavaText.ParseBoolean | app/src/main/java/de/organizer/io/TaskCSVHandler.java:72 | `Boolean.parseBoolean` is true exactly for four characters that fold to "true" |
| JavaText.ParseFormatBoolean | app/src/main/java/de/organizer/io/TaskCSVHandler.java:72 | `parseBoolean` reads the "true"/"false" the export writes back to the flag |
| Temporal.ParseDate | app/src/main/java/de/organizer/io/TaskCSVHandler.java:69 | a date that `LocalDate.parse` accepts is a valid calendar date written as ten characters |
| Temporal.ParseDateTime | app/src/main/java/de/organizer/model/Memo.java:110 | a time stamp that `LocalDateTime.parse` accepts is a valid date-time written as 16 or 19 characters |
| Temporal.ParseFormatDate | app/src/main/java/de/organizer/io/TaskCSVHandler.java:69 | `LocalDate.parse` undoes `LocalDate.toString` |
| Temporal.ParseFormatDateTime | app/src/main/java/de/organizer/io/TaskCSVHandler.java:65 | `LocalDateTime.parse` undoes `LocalDateTime.toString`, seconds omitted when zero |
| Temporal.FormattedHasNoSeparator | app/src/main/java/de/organizer/io/TaskCSVHandler.java:39 | a written date or time stamp is never empty and never holds ';' |
| Priorities.Priority.Level | app/src/main/java/de/organizer/util/Priority.java:61-63 | every level lies in 1..4 |
| Priorities.Priority.ToString | app/src/main/java/de/organizer/util/Priority.java:52-54 | `toString` is the German label, never the constant's name |
| Priorities.ValuesAreAllConstants | app/src/main/java/de/organizer/util/Priority.java:17-23 | there are exactly four constants, listed in declaration order with levels 1, 2, 3, 4 |
| Priorities.LevelOrder | app/src/main/java/de/organizer/util/Priority.java:17-23 | the level increases strictly with the declaration order, so equal levels mean the same constant |
| Priorities.ValueOfMeaning | app/src/main/java/de/organizer/io/TaskCSVHandler.java:71 | `Priority.valueOf` finds a constant exactly when the text is that constant's name, and otherwise throws |
| Priorities.ValueOfName | app/src/main/java/de/organizer/model/Task.java:54 | `valueOf(p.name())` is p, which the loader relies on |
| Priorities.LabelsDistinct | app/src/main/java/de/organizer/util/Priority.java:17-23 | the labels are pairwise distinct |
| Categories.Category.ToString | app/src/main/java/de/organizer/util/Category.java:40-42 | `toString` is the label, which is never null or empty, and never the constant's name |
| Categories.ValuesAreAllConstants | app/src/main/java/de/organizer/util/Category.java:22-27 | there are exactly six constants |
| Categories.ValueOfMeaning | app/src/main/java/de/organizer/io/TaskCSVHandler.java:66 | `Category.valueOf` finds a constant exactly when the text is that constant's name |
| Categories.ValueOfName | app/src/main/java/de/organizer/io/TaskCSVHandler.java:66 | `valueOf(c.name())` is c |
| Categories.LabelsDistinct | app/src/main/java/de/organizer/util/Category.java:22-27 | the labels are pairwise distinct |
| Ids.Increment | app/src/main/java/de/organizer/util/IDGenerator.java:23 | `++` on a `long` stays in range: one more, except that the largest value wraps to the smallest |
| Ids.CounterAfter | app/src/main/java/de/organizer/util/IDGenerator.java:22-24 | after k calls since a reset the counter is k, as long as k does not exceed the largest `long` |
| Ids.IssuedIds | app/src/main/java/de/organizer/util/IDGenerator.java:22-24 | the i-th id handed out since a reset is the counter after i + 1 calls |
| Ids.IdGenerator.constructor | app/src/main/java/de/organizer/util/IDGenerator.java:10 | the counter starts at 0 with no ids handed out |
| Ids.IdGenerator.GenerateId | app/src/main/java/de/organizer/util/IDGenerator.java:22-24 | the counter is incremented, the new value is returned, and it joins the ids handed out |
| Ids.IdGenerator.Reset | app/src/main/java/de/organizer/util/IDGenerator.java:30-32 | whatever the state, the counter is 0 and the history is empty afterwards, so a second reset changes nothing |
| Ids.IssuedIdsCount | app/src/test/java/de/organizer/util/IDGeneratorTest.java:27-33 | n calls after a reset return 1, 2, ..., n |
| Ids.IssuedIdsIncrease | app/src/main/java/de/organizer/util/IDGenerator.java:22-24 | as long as the counter has not wrapped, each id is greater than every id handed out before it since the reset |
| Ids.CounterWraps | app/src/main/java/de/organizer/util/IDGenerator.java:23 | the call after the largest `long` returns the smallest `long` |
| Ids.ThreeIdsAfterReset | app/src/test/java/de/organizer/util/IDGeneratorTest.java:27-33 | reset, then three calls, return 1, 2 and 3 |
| Tasks.Task.constructor | app/src/main/java/de/organizer/model/Task.java:17-27 | the five-argument constructor stores its arguments, starts not done, and stamps the day given as today |
| Tasks.Task.WithDone | app/src/main/java/de/organizer/model/Task.java:29-39 | the six-argument constructor stores the given done flag |
| Tasks.Task.ToggleDone | app/src/main/java/de/organizer/model/Task.java:61-63 | the done flag is negated and the priority is kept |
| Tasks.Task.SetDone | app/src/main/java/de/organizer/model/Task.java:89-91 | the done flag is the given one and the priority is kept |
| Tasks.Task.SetPriority | app/src/main/java/de/organizer/model/Task.java:69-71 | the priority is replaced and the done flag is kept |
| Tasks.Task.ExportData | app/src/main/java/de/organizer/model/Task.java:47-59 | six fields: `String.valueOf(id)`, the title and description, the due date ("null" exactly when absent), the priority name and "true" or "false"; each parses back |
| Tasks.ToggleTwice | app/src/main/java/de/organizer/model/Task.java:61-63 | toggling twice restores the done flag |
| Tasks.ExportSample | app/src/test/java/de/organizer/model/TaskTest.java:36-45 | the test's task exports as "1", "Testaufgabe", "Beschreibung", "2025-08-01", "HIGH", "false" |
| Memos.Memo.constructor | app/src/main/java/de/organizer/model/Memo.java:128-133 | the memo holds the builder's id, creation time, title and content |
| Memos.Memo.SetTitle | app/src/main/java/de/organizer/model/Memo.java:29 | the title is replaced and the content is kept; id and creation time are constants |
| Memos.Memo.SetContent | app/src/main/java/de/organizer/model/Memo.java:33 | the content is replaced without validation and the title is kept |
| Memos.Memo.ToCsvRow | app/src/main/java/de/organizer/model/Memo.java:46-53 | four fields, as many as the header: `String.valueOf(id)` and `createdAt.toString()`, which parse back to them, then title and content as they are |
| Memos.Builder.constructor | app/src/main/java/de/organizer/model/Memo.java:72-75 | a new builder holds Java's defaults: id 0 and every reference null |
| Memos.Builder.Title | app/src/main/java/de/organizer/model/Memo.java:80-83 | the title is set, nothing else changes, and the same builder is returned |
| Memos.Builder.Content | app/src/main/java/de/organizer/model/Memo.java:87-90 | the content is set, nothing else changes, and the same builder is returned |
| Memos.Builder.Build | app/src/main/java/de/organizer/model/Memo.java:95-103 | a fresh id is drawn and the time stamped before validating, so a rejected build still uses up an id; the build succeeds exactly when the content is present and not blank |
| Memos.Builder.BuildInternal | app/src/main/java/de/organizer/model/Memo.java:108-115 | the id is taken; a time stamp that does not parse fails before the content is looked at; otherwise it succeeds exactly when the content is present and not blank, with that id and time |
| Memos.FromCsv | app/src/main/java/de/organizer/model/Memo.java:58-64 | the memo keeps the given id, parsed time stamp, title and content, with the same failures as `buildInternal` |
| Memos.CsvRoundTrip | app/src/main/java/de/organizer/model/Memo.java:46-64 | `fromCsv` of a memo's own row gives a new memo with the same id, creation time, title and content, whenever the content is still present and not blank |
| Memos.TimestampWithoutSeconds | app/src/test/java/de/organizer/model/MemoTest.java:50-55 | "2024-06-01T12:00" parses to that minute and is written back as the same text |
| Memos.ContentValidation | app/src/main/java/de/organizer/model/Memo.java:120-124 | null, empty and all-space content are rejected; the tests' content is accepted |
| Memos.BuilderScenario | app/src/test/java/de/organizer/model/MemoTest.java:59-61 | a successful build and a build without content each draw one id |
| StableSort.LexLessIrreflexive | app/src/main/java/de/organizer/service/ArrangeTaskList.java:12 | no key is less than itself |
| StableSort.LexLessTransitive | app/src/main/java/de/organizer/service/ArrangeTaskList.java:12 | the key order is transitive |
| StableSort.LexLessTotal | app/src/main/java/de/organizer/service/ArrangeTaskList.java:12 | any two keys are ordered one way or the other, or are equal |
| StableSort.SortedByIsSorted | app/src/main/java/de/organizer/service/ArrangeTaskList.java:12 | the stable sort's result has no key smaller than a key before it |
| StableSort.SortedByIsPermutation | app/src/main/java/de/organizer/service/ArrangeTaskList.java:12 | the stable sort's result is a permutation of its input |
| StableSort.SortedByIsStable | app/src/main/java/de/organizer/service/ArrangeTaskList.java:12 | for every key, the elements with that key keep their relative order |
| StableSort.SortedByPermutesItems | app/src/main/java/de/organizer/service/ArrangeTaskList.java:12 | sorting permutes the items, not only the item-key pairs |
| ArrangeTaskList.LexLessCons | app/src/main/java/de/organizer/service/ArrangeTaskList.java:24-26 | `thenComparing` compares the first keys and, only when they are equal, the second ones |
| ArrangeTaskList.DateKeyOrder | app/src/main/java/de/organizer/service/ArrangeTaskList.java:16 | comparing date keys is `LocalDate.compareTo`, and equal keys mean equal dates |
| ArrangeTaskList.NegatedReverses | app/src/main/java/de/organizer/service/ArrangeTaskList.java:30 | `reversed()` swaps the order of any two keys of the same length |
| ArrangeTaskList.TitleKey | app/src/main/java/de/organizer/service/ArrangeTaskList.java:20 | `CASE_INSENSITIVE_ORDER` compares the case-folded characters one by one |
| ArrangeTaskList.Sort | app/src/main/java/de/organizer/service/ArrangeTaskList.java:12 | `List.sort` in place: the tasks end in the order of the stable sort of their keys |
| ArrangeTaskList.InsertNext | app/src/main/java/de/organizer/service/ArrangeTaskList.java:12 | one insertion step moves a task past every earlier task with a greater key, and nothing after it moves |
| ArrangeTaskList.MakeRoom | app/src/main/java/de/organizer/service/ArrangeTaskList.java:12 | the shifting loop moves each greater task one place right and stops at the insertion point |
| ArrangeTaskList.SortOutcome | app/src/main/java/de/organizer/service/ArrangeTaskList.java:11-35 | after a sort the keys ascend, the tasks are a permutation, and the tasks with equal keys keep their order |
| ArrangeTaskList.LevelsAscend | app/src/main/java/de/organizer/service/ArrangeTaskList.java:12 | ascending priority keys are non-decreasing levels |
| ArrangeTaskList.DueDatesAscend | app/src/main/java/de/organizer/service/ArrangeTaskList.java:16 | ascending due-date keys are due dates in calendar order |
| ArrangeTaskList.TitlesAscend | app/src/main/java/de/organizer/service/ArrangeTaskList.java:20 | ascending title keys are titles in case-insensitive order |
| ArrangeTaskList.LevelsThenDatesAscend | app/src/main/java/de/organizer/service/ArrangeTaskList.java:24-26 | ascending combined keys are levels in order, and due dates in order among tasks of one level |
| ArrangeTaskList.CreationDaysDescend | app/src/main/java/de/organizer/service/ArrangeTaskList.java:30 | ascending reversed keys are creation days newest first |
| ArrangeTaskList.CreationDaysAscend | app/src/main/java/de/organizer/service/ArrangeTaskList.java:34 | ascending creation keys are creation days oldest first |
| ArrangeTaskList.PermutedSameLevelDates | app/src/main/java/de/organizer/service/ArrangeTaskList.java:24-26 | "every task that shares its level with another has a due date" survives a permutation |
| ArrangeTaskList.DueDatesSorted | app/src/main/java/de/organizer/service/ArrangeTaskList.java:16 | the stable sort by due date leaves every two tasks with due dates in calendar order |
| ArrangeTaskList.LevelsThenDatesSorted | app/src/main/java/de/organizer/service/ArrangeTaskList.java:24-26 | the stable sort by level, then due date, leaves levels in order and due dates in order within a level |
| ArrangeTaskList.SortByPriority | app/src/main/java/de/organizer/service/ArrangeTaskList.java:11-13 | in place: levels non-decreasing, a permutation, stable |
| ArrangeTaskList.SortByDueDate | app/src/main/java/de/organizer/service/ArrangeTaskList.java:15-17 | in place: due dates ascending, a permutation, stable; with two or more tasks every due date must be present, since the comparator throws on a null one |
| ArrangeTaskList.SortByTitle | app/src/main/java/de/organizer/service/ArrangeTaskList.java:19-21 | in place: titles ascending ignoring case, a permutation, stable |
| ArrangeTaskList.SortByPriorityThenDate | app/src/main/java/de/organizer/service/ArrangeTaskList.java:23-27 | in place: levels ascending, then due dates ascending within a level, a permutation, stable; a task that shares its level must have a due date |
| ArrangeTaskList.SortByNewest | app/src/main/java/de/organizer/service/ArrangeTaskList.java:29-31 | in place: creation days descending, a permutation, stable |
| ArrangeTaskList.SortByOldest | app/src/main/java/de/organizer/service/ArrangeTaskList.java:33-35 | in place: creation days ascending, a permutation, stable |
| Outcomes.CollectStep | app/src/main/java/de/organizer/io/TaskCSVHandler.java:59-77 | one step of a loading loop: a skipped line changes nothing, a failing line ends the run with its error, a value is appended |
| Outcomes.CollectSkips | app/src/main/java/de/organizer/io/TaskCSVHandler.java:62 | a skipped item can be removed wherever it stands without changing the run |
| Outcomes.CollectFailsIff | app/src/main/java/de/organizer/io/TaskCSVHandler.java:64-71 | a run fails exactly when some item fails, and then with the error of the first failing item |
| Outcomes.CollectKeepsOrder | app/src/main/java/de/organizer/io/TaskCSVHandler.java:76 | a successful run holds one value per kept item, in input order |
| Outcomes.CollectAllSucceed | app/src/main/java/de/organizer/io/TaskCSVHandler.java:59-77 | items that all give values collect to exactly those values |
| Outcomes.SomesAppend | app/src/main/java/de/organizer/service/ExcelRosterReader.java:117 | the days of two row runs put together are the days of each, put together |
| Outcomes.SomesKeepsOrder | app/src/main/java/de/organizer/service/ExcelRosterReader.java:117 | one value per present item, in input order |
| Outcomes.SomesFrom | app/src/main/java/de/organizer/service/ExcelRosterReader.java:117 | every kept value comes from an item that is present |
| TaskCsv.FieldsReadBack | app/src/main/java/de/organizer/io/TaskCSVHandler.java:64-70 | the loader reads the id, creation time, due date and reminder fields back to the values they were written from, "" to an absent date |
| TaskCsv.Fields | app/src/main/java/de/organizer/io/TaskCSVHandler.java:62 | a record is written as exactly as many fields as the loader demands |
| TaskCsv.SaveTasksAsCsv | app/src/main/java/de/organizer/io/TaskCSVHandler.java:31-43 | the loop writes the header line and then each task's line |
| TaskCsv.SaveLinesShape | app/src/main/java/de/organizer/io/TaskCSVHandler.java:35-41 | a save is the header followed by exactly one line per task, in list order |
| TaskCsv.DecodeDate | app/src/main/java/de/organizer/io/TaskCSVHandler.java:69 | an empty due-date field is an absent date; any other succeeds exactly when it parses, to the parsed date |
| TaskCsv.DecodeDateTime | app/src/main/java/de/organizer/io/TaskCSVHandler.java:70 | an empty reminder field is absent; any other succeeds exactly when it parses, to the parsed time |
| TaskCsv.DecodeFieldsMeaning | app/src/main/java/de/organizer/io/TaskCSVHandler.java:64-75 | a line's fields decode exactly when the id, times and constant names parse; the record holds the parsed values and the texts as they are, and the done flag is `parseBoolean` |
| TaskCsv.LoadTasksFromCsv | app/src/main/java/de/organizer/io/TaskCSVHandler.java:51-80 | the read loop returns what the load of the lines specifies |
| TaskCsv.LoadIgnoresHeader | app/src/main/java/de/organizer/io/TaskCSVHandler.java:57 | the first line is never looked at |
| TaskCsv.IncompleteLineSkipped | app/src/main/java/de/organizer/io/TaskCSVHandler.java:61-62 | a line that does not split into nine fields is skipped without error, wherever it stands |
| TaskCsv.DecodeFailsIff | app/src/main/java/de/organizer/io/TaskCSVHandler.java:64-71 | the load fails exactly when some nine-field line does not decode, and then with the error of the first such line; nothing partial is returned |
| TaskCsv.DecodeKeepsOrder | app/src/main/java/de/organizer/io/TaskCSVHandler.java:59-76 | a successful load has one record per nine-field line, in line order, taken from that line |
| TaskCsv.FieldsSeparable | app/src/main/java/de/organizer/io/TaskCSVHandler.java:39 | with a title and description free of ';', no field holds ';' and the last field is not empty |
| TaskCsv.FieldsParseBack | app/src/main/java/de/organizer/io/TaskCSVHandler.java:64-72 | every field of a record parses back to the part of the record it was written from |
| TaskCsv.DecodeParsedFields | app/src/main/java/de/organizer/io/TaskCSVHandler.java:64-75 | fields that parse to the parts of a record decode to that record |
| TaskCsv.DecodeEncode | app/src/main/java/de/organizer/io/TaskCSVHandler.java:61-75 | a record's line has nine fields and decodes to the record |
| TaskCsv.LoadSaveRoundTrip | app/src/main/java/de/organizer/io/TaskCSVHandler.java:31-80 | loading what was saved gives the same tasks in the same order, when no title or description holds ';' |
| TaskCsv.SaveLoadKeepsTitlesAndDone | app/src/test/java/de/organizer/io/TaskCSVHandlerTest.java:44-58 | two saved tasks load back as two tasks with the same titles and done flags |
| Rosters.Find | app/src/main/java/de/organizer/service/ExcelRosterReader.java:161 | the key lookup finds the first entry with that slot, and none exactly when no entry has it |
| Rosters.AddMeaning | app/src/main/java/de/organizer/service/ExcelRosterReader.java:160-162 | `addAssignment` appends the name to the slot's list, creating the list when the key is absent; every other key keeps its list; a new key goes last |
| Rosters.AddWellFormed | app/src/main/java/de/organizer/service/ExcelRosterReader.java:160-162 | `addAssignment` keeps every key once and every list non-empty |
| Rosters.AddAllMeaning | app/src/main/java/de/organizer/service/ExcelRosterReader.java:109-111 | adding a cell's names appends them, in order, to the slot's list and leaves every other key alone |
| Rosters.AddAllKeys | app/src/main/java/de/organizer/service/ExcelRosterReader.java:109-111 | the slot's key exists afterwards exactly when it existed or some name was added, and a new key goes last |
| Rosters.AddAllWellFormed | app/src/main/java/de/organizer/service/ExcelRosterReader.java:109-111 | adding several names keeps the map well formed |
| Rosters.FillMeaning | app/src/main/java/de/organizer/service/ExcelRosterReader.java:93-116 | a day's map holds under each label exactly the names of that label's columns, in column order; the key is present exactly when there are such names; every key is a slot label |
| Rosters.FillWellFormed | app/src/main/java/de/organizer/service/ExcelRosterReader.java:93-116 | a day's map has no key twice and no empty list |
| Rosters.DaySchedule.constructor | app/src/main/java/de/organizer/service/ExcelRosterReader.java:151-153 | a new day schedule has its date and no assignments |
| Rosters.DaySchedule.AddAssignment | app/src/main/java/de/organizer/service/ExcelRosterReader.java:160-162 | the map becomes `computeIfAbsent(slot).add(name)` of the old one, whose meaning `AddMeaning` states |
| Rosters.ReadTimeSlots | app/src/main/java/de/organizer/service/ExcelRosterReader.java:52-60 | the header loop returns the slot list the header specifies, or the exception of a cell that holds no text |
| Rosters.ReadRow | app/src/main/java/de/organizer/service/ExcelRosterReader.java:68-90 | a row is skipped exactly when its column-0 cell is absent, not numeric, or does not convert; otherwise a fresh day schedule with the row's date and map |
| Rosters.ReadDay | app/src/main/java/de/organizer/service/ExcelRosterReader.java:90-116 | the slot loop builds a fresh day schedule whose map is the one the row specifies |
| Rosters.AddCell | app/src/main/java/de/organizer/service/ExcelRosterReader.java:94-112 | one name cell adds the names it holds, and nothing for an absent cell, a non-string cell, or text empty after trimming |
| Rosters.AddNames | app/src/main/java/de/organizer/service/ExcelRosterReader.java:108-111 | the loop over a cell's pieces adds each piece trimmed, in order |
| Rosters.ReadRoster | app/src/main/java/de/organizer/service/ExcelRosterReader.java:38-126 | an empty sheet gives an empty list; otherwise the read fails exactly as the header specifies, or returns distinct, fresh day schedules holding exactly the days of the data rows |
| Rosters.ReadDataRows | app/src/main/java/de/organizer/service/ExcelRosterReader.java:63-118 | the row loop returns distinct, fresh day schedules holding the days of the kept rows, in row order |
| Rosters.SlotLabels | app/src/main/java/de/organizer/service/ExcelRosterReader.java:52-60 | the slot labels are the present header cells from column 1 on, trimmed, in column order; the read fails exactly when one of them holds no text |
| Rosters.ColumnZeroIgnored | app/src/main/java/de/organizer/service/ExcelRosterReader.java:55 | column 0 of the header never becomes a slot |
| Rosters.RowSkipped | app/src/main/java/de/organizer/service/ExcelRosterReader.java:68-88 | a row without a date adds no day schedule, and the rows after it are read as if it were not there |
| Rosters.DaysInRowOrder | app/src/main/java/de/organizer/service/ExcelRosterReader.java:90-117 | exactly one day schedule per kept row, in row order, with that row's date and map |
| Rosters.RosterDays | app/src/main/java/de/organizer/service/ExcelRosterReader.java:106-110 | every day's map is well formed and keyed by slot labels only |
| Rosters.CellNamesOfJoin | app/src/main/java/de/organizer/service/ExcelRosterReader.java:106-111 | a cell of pieces joined by "/" gives each piece trimmed, blank ones as empty names |
| Rosters.OneName | app/src/main/java/de/organizer/service/ExcelRosterReader.java:108-110 | a clean name alone is one name |
| Rosters.TwoNames | app/src/test/java/de/organizer/service/ExcelRosterReaderTest.java:54 | "Anna/Bob" gives both names, in order |
| Rosters.BlankPiece | app/src/main/java/de/organizer/service/ExcelRosterReader.java:109-110 | "Anna/ /Bob" adds an empty name between the two |
| Rosters.TrailingSeparator | app/src/main/java/de/organizer/service/ExcelRosterReader.java:108 | "Anna/" gives one name, since `split` drops trailing empty pieces |
| Rosters.NoNames | app/src/main/java/de/organizer/service/ExcelRosterReader.java:96-106 | an absent cell, a non-text cell, or text that trims to "" gives no names |
| Rosters.SampleSlots | app/src/test/java/de/organizer/service/ExcelRosterReaderTest.java:28-30 | the test's header gives the two slot labels |
| Rosters.SampleFirstDay | app/src/test/java/de/organizer/service/ExcelRosterReaderTest.java:54-55 | the test's first day maps the early slot to the two names and the late slot to one |
| Rosters.SampleSecondDay | app/src/test/java/de/organizer/service/ExcelRosterReaderTest.java:57-58 | the test's second day has only the early slot |
| Rosters.SampleRoster | app/src/test/java/de/organizer/service/ExcelRosterReaderTest.java:52-58 | the test's sheet gives two days in row order, and the second has no key for the late slot |

## Left out

- Apache POI: opening the workbook, the sheet iterator and the cell getters are replaced by the sheet as a sequence of rows of typed cells. The rethrow of I/O and format errors is not modelled.
- The conversion of a numeric cell to a date in the system time zone is not computed. A numeric cell carries its converted date, or `None` when the conversion throws.
- Logging, `printRoster` and console output are left out; they do not affect the result.
- `synchronized` on the id counter is left out: the model is sequential. The static counter is one `IdGenerator` object handed to every builder.
- Clock reads (`LocalDate.now()`, `LocalDateTime.now()`) are parameters of the constructors and builders.
- Files and their readers and writers are sequences of lines.
- LoadSaveRoundTrip: excludes only ';' in titles and descriptions. A line break in them would split the written line when it is read back, and the model does not see that because files are sequences of lines.
- `Task.CSV_HEADER`, `Task.toCsvRow` and `Task.fromCsv` are not part of this model; the `Task.java` in the repository lacks them and the category and reminder fields. The CSV codec therefore works on a nine-column `TaskRecord` in the loader's column order. The header's column names are a parameter of saving.
- ArrangeTaskList.Sort: `List.sort` is modelled by a stable insertion sort. Its result is the same as Java's stable merge sort, but the comparisons made are not. Each key is computed once before the sort.
- ArrangeTaskList.SortByPriorityThenDate: the precondition asks for a due date on every task that shares its level with another. Java compares only some pairs of such tasks, but each such task meets a neighbour of its level, so a null date there always throws.
- JavaText.ParseLong: accepts only the ASCII digits 0-9. `Long.parseLong` also accepts every other Unicode decimal digit (Arabic-Indic, fullwidth and so on), so a task line whose id is written in such digits loads in Java but makes the model's load fail.
- Tasks.Task: the title, description, priority and done flag cannot be null here, while Java's constructors accept null for each. The exceptions that null values would cause are not modelled:
  - a null priority throws in `getExportData`, and in `sortByPriority` and `sortByPriorityThenDate` once two tasks are compared;
  - a null title throws in `sortByTitle`;
  - a null `Boolean done` throws on unboxing in the six-argument constructor.
- Memos.Builder.BuildInternal: the time-stamp text cannot be null here; in Java `buildInternal(id, null)` throws in `LocalDateTime.parse`. `Memos.FromCsv` takes the same non-null text.
- JavaText.FoldCase: `CASE_INSENSITIVE_ORDER` and `parseBoolean` fold case per character. Only A-Z are folded; the rest of Unicode case mapping is left out.
- Temporal.ParseDateTime: dates and times cover the years 0 to 9999 and whole seconds. The signed and longer year forms and fractions of a second of `java.time` are left out.
- Spreadsheet formula cells: only the cached text result of a header formula is read. Boolean and error cells are one `Other` case.
- `Task.toString`, `DayScheduleEditorDialog`, `Main` and the `MissingFieldException` class are not part of this model. They are presentation and wiring; the exception is the `MissingField` error of `Memos.MemoError`.
