# Workout ledger model

A Dafny model of the workout ledger engine of a small workout-tracking web
app. The app keeps one document, the ledger: an object from exercise name
to that exercise's day entries. Each day entry has a "DD.MM" date, its sets
and the form defaults it was logged with. A set is stored as a legacy
"RxW" string or as a `{value: "RxW", notes}` record. Around the ledger
are several screens:

- the workout page, which loads one exercise's table, logs, appends and
  edits sets, and lists exercise options;
- the history screen, which groups entries by date, drops ledger entries
  that a custom-workout template covers, deletes entries, and manages
  templates;
- a plain history page;
- the weight chart;
- the calendar;
- the custom-workout navigator;
- the coach chat;
- the exercise picker;
- the theme toggle.

Every handler is modelled as a pure function from state to state. Other
parts of the model:

- The ledger is a sequence of (name, entries) rows, so JavaScript key
  order is explicit. `Ledger.WellKeyed` says that no key repeats.
- JavaScript numbers are `JsNumber.Num`: a real or NaN. For the number
  forms listed under "Left out", malformed "RxW" text therefore gives NaN
  exactly where the app does, and no well-formedness precondition is
  needed.
- Reps and weights in the form are natural numbers of thousandths. For
  example 2.5 is 2500. Reps need not be whole, because the reps input
  accepts any number.
- The source copies the volume rule and the date comparator into several
  files. The model defines each once:
  - the volume rule in `Aggregator.Volume` and `Sums`;
  - the comparator in `Dates.CompareDesc` and `Dates.CompareAsc`.

  Lemmas show that each copy matches that one definition.

Modules follow the source:

| module | what it models |
|---|---|
| `Ledger` | the ledger and set normalisation |
| `SetCodec` | the "RxW" codec |
| `Aggregator` and `Sums` | volumes |
| `Dates` | "DD.MM" parsing, formatting and ordering |
| `Sorting` | a reference sort used to state what `Array.prototype.sort` returns |
| `Views` and `Assoc` | JavaScript objects used as maps |
| `HistoryView`, `HistoryEdits` and `Templates` | the history screen |
| `PlainHistory` | the plain history page |
| `WorkoutForm`, `WorkoutLog` and `Home` | the workout page |
| `WeightChart` | the weight chart |
| `Calendar` | the calendar |
| `Navigator` | the custom-workout navigator |
| `CoachChat` | the coach chat |
| `Combobox` | the exercise picker |
| `Theme` | the theme toggle |

`Text` and `JsNumber` hold the string and number primitives the app calls:
`split`, `join`, `trim`, `padStart`, `String(n)` and `Number(s)`.

## Model

| member | source | states |
|---|---|---|
| Ledger.Normalize | src/components/history.tsx:143-148 | a legacy string set becomes a record with the same value and notes ""; a record is left unchanged |
| Ledger.NormalizeIdempotent | src/components/history.tsx:143-148 | normalising the sets twice is the same as normalising them once |
| Ledger.Get | src/app/page.tsx:186 | `storedData[name]` is present exactly when `name` is a key, and then it is that key's entries |
| Ledger.Put | src/app/page.tsx:369 | writing a key sets its entries and leaves every other key's entries as they were |
| Ledger.PutNames | src/app/page.tsx:369 | an existing key keeps its place in the key order; a new key goes last |
| Ledger.PutWellKeyed | src/app/page.tsx:369 | writing a key never makes a key repeat |
| Ledger.Remove | src/components/history.tsx:248-251 | `delete` makes the key absent and leaves every other key's entries as they were |
| Ledger.RemoveWellKeyed | src/components/history.tsx:248-251 | deleting a key never makes a key repeat |
| Ledger.PairsMeaning | src/components/history.tsx:132-133 | the nested walk over `Object.entries` and each entry list visits exactly the ledger's (key, entry) pairs |
| Ledger.FilterDateMembers | src/components/history.tsx:244-246 | the date filter keeps exactly the entries whose date differs |
| Ledger.FilterDateConcat | src/components/history.tsx:244-246 | the filter works entry by entry: filtering a concatenation concatenates the filtered parts, so survivors keep their order |
| SetCodec.EncodeDecode | src/app/page.tsx:299-309 | splitting a set string built as `${reps}x${weight}` on 'x' and reading both pieces with `Number` gives back exactly the reps and the weight |
| SetCodec.EncodeSplits | src/app/page.tsx:309 | the built string splits on 'x' into exactly the printed reps and the printed weight |
| SetCodec.DecodeSet | src/components/history.tsx:103 | a value with no 'x' reads a NaN weight, because the second piece is undefined |
| SetCodec.EncodedVolume | src/components/history.tsx:103-104 | a logged set contributes reps × weight |
| Aggregator.VolumeEmpty | src/components/history.tsx:101-106 | the volume of no sets is 0 |
| Aggregator.VolumeConcat | src/components/history.tsx:101-106 | the volume of a concatenation is the sum of the two volumes |
| Aggregator.VolumeOfLogged | src/components/history.tsx:101-106 | appending a logged set adds exactly its reps × weight |
| Aggregator.VolumeNormalized | src/components/history.tsx:143-153 | normalising the sets does not change their volume |
| Aggregator.VolumeOfPair | src/components/history.tsx:101-106 | a legacy set and a record each contribute their reps × weight |
| Aggregator.VolumeExample | src/components/history.tsx:101-106 | "10x50" then "5x60" give 800 |
| Aggregator.HistoryCopyMatches | src/components/history.tsx:101-106 | the history screen's `calculateVolume` on normalised sets equals the shared volume of the original sets |
| Aggregator.HistoryReduceIsFold | src/components/history.tsx:102-105 | that copy's reduce is the generic left fold of reps × weight |
| Aggregator.InlineCopyMatches | src/components/ui/component.tsx:57-61 | the chart's and the calendar's inline reduce, which accepts legacy strings, equals the shared volume on every input |
| Aggregator.InlineReduceIsFold | src/components/ui/calendar-demo.tsx:62-66 | the inline reduce is the generic left fold of reps × weight |
| Aggregator.EntrySumsMatch | src/components/ui/component.tsx:52-66 | summing entry weights by the inline copy equals summing entry volumes by the shared definition |
| Sums.SumConcat | src/components/history.tsx:286 | a sum over a concatenation is the sum of the two sums |
| Sums.FoldIsSum | src/components/history.tsx:102-105 | a left-to-right reduce from 0 computes the sum |
| Sums.ChainIsSum | src/components/ui/component.tsx:64 | with finite terms, the running total `(t \|\| 0) + w` is the plain sum |
| Sums.ChainReset | src/components/ui/component.tsx:64 | a NaN total is forgotten by `\|\| 0` once another term follows it: the total restarts from the later terms |
| Dates.ParseDate | src/components/history.tsx:218-219 | a date without '.' reads a NaN month |
| Dates.FormatDate | src/components/ui/calendar-demo.tsx:104 | a day and month below 100 format as five characters with '.' in the middle |
| Dates.Pad2 | src/components/ui/calendar-demo.tsx:104 | `padStart(2, '0')` gives digits that read as the number, two of them below 100 |
| Dates.FormatParse | src/components/ui/calendar-demo.tsx:83-104 | splitting a formatted date on '.' and reading the pieces gives back the day and the month |
| Dates.CompareDescMeaning | src/components/history.tsx:217-221 | on valid dates `monthB - monthA \|\| dayB - dayA` is finite, and ≤ 0 exactly when `a` is at least as recent as `b` (later month, or same month and day not earlier) |
| Dates.CompareAscMeaning | src/components/ui/component.tsx:74-78 | on valid dates `(monthA - monthB) \|\| (dayA - dayB)` is ≤ 0 exactly when `b` is at least as recent as `a` |
| Dates.RecencyTotalPreorder | src/components/history.tsx:217-221 | on valid dates the recency order is total and transitive |
| Dates.MonthBeatsDay | src/components/history.tsx:217-221 | the month decides before the day: "15.06" is more recent than "01.03" and not the other way round |
| Dates.SortDesc | src/components/history.tsx:400-404 | sorting valid dates by the descending comparator gives a permutation, most recent first |
| Dates.SortAsc | src/components/ui/component.tsx:74-78 | sorting valid dates by the ascending comparator gives a permutation, oldest first |
| Sorting.SortBySorted | src/components/history.tsx:400-404 | under a comparator that is a total preorder on the input, every element of the sorted list may come before every later one (`SortBy` itself keeps the multiset of elements) |
| Sorting.FirstComesFirst | src/app/page.tsx:104-109 | the first element of the sorted list may come before every element of the input |
| Views.PushAllValid | src/components/history.tsx:159-172 | creating a date key if missing and pushing items onto it keeps keys unique and equal to the map's domain |
| Views.GrowSize | src/app/history/page.tsx:48-54 | adding `n` items under one key adds `n` to the total item count |
| Assoc.LookupUpsert | src/components/ui/component.tsx:64 | after `obj[k] = step(obj[k] ?? initial)` key `k` holds the step of its old value, or of `initial` when it was absent; every other key is unchanged |
| Assoc.UpsertKeys | src/components/ui/component.tsx:64 | an upsert adds `k` to the keys and nothing else |
| Assoc.UpsertDistinct | src/components/ui/component.tsx:64 | an upsert never repeats a key |
| HistoryView.CoverageIndexMeaning | src/components/history.tsx:117-129 | `exercisesInCustomWorkouts[d]?.has(e)` is true exactly when some template dated `d` lists `e`, and `d` is a key exactly when some template has that date |
| HistoryView.NameByDateMeaning | src/components/history.tsx:116-120 | a date is named exactly when some template has that date, and the name is that of the last such template |
| HistoryView.GroupWorkoutsByDate | src/components/history.tsx:108-175 | the grouped view has unique date keys, and its date-to-name map is the templates' |
| HistoryView.GroupedAt | src/components/history.tsx:132-172 | under each date come first the uncovered ledger entries of that date, in walk order, then the template snapshots of that date |
| HistoryView.GroupedKeys | src/components/history.tsx:134-136 | a date is a key exactly when some ledger entry or some template has it, even when all its ledger entries were skipped |
| HistoryView.LedgerItemsDedup | src/components/history.tsx:139-153 | the ledger part under `d` holds exactly the normalised entries of date `d` whose exercise no template of date `d` lists |
| HistoryView.GroupedDedup | src/components/history.tsx:139-172 | when a template of date `d` lists `e`, no ledger item for `e` is kept under `d`, yet `e` is shown there through the template |
| HistoryView.TemplateItemsContain | src/components/history.tsx:159-172 | each template's snapshot is kept, unchanged, under its date |
| HistoryView.TemplateInView | src/components/history.tsx:159-172 | a template's date is a key of the view and its whole snapshot is there |
| HistoryView.LastPerformed | src/components/history.tsx:210-226 | none exactly when the template has no exercises and some date holds an item, where reading the first exercise inside the `.some` callback throws; a template without exercises over a view without items gets its own date; otherwise the template's own date, or a key whose items contain the first exercise |
| HistoryView.LastPerformedLatest | src/components/history.tsx:210-226 | on valid date keys, when some date contains the first exercise, the result is such a date and is at least as recent as every one of them |
| HistoryView.LastPerformedNeverOlder | src/components/history.tsx:210-226 | since a template's snapshot is in the view, its last-performed date is never older than its own date |
| HistoryView.DayStatsMeaning | src/components/history.tsx:281-289 | the day statistics are the item count, the sum of set counts and the sum of volumes |
| HistoryEdits.HandleDelete | src/components/history.tsx:236-259 | with no target nothing changes; otherwise the target exercise keeps its entries of other dates, or disappears when none are left, and every other exercise is unchanged |
| HistoryEdits.HandleDeleteMeaning | src/components/history.tsx:243-251 | after the delete the exercise holds exactly its old entries of other dates; it is gone exactly when all its entries had that date |
| HistoryEdits.HandleDeleteWellKeyed | src/components/history.tsx:236-259 | deleting keeps keys unique |
| HistoryEdits.CleanedIdempotent | src/components/history.tsx:244-251 | deleting the same date twice is deleting it once |
| HistoryEdits.HandleDeleteDayGet | src/components/history.tsx:261-279 | after deleting a day each key holds its old entries minus those of that date, and a key left with none is gone |
| HistoryEdits.HandleDeleteDayClears | src/components/history.tsx:261-279 | after deleting a day no entry of that date is left anywhere and no key maps to an empty list |
| HistoryEdits.DeleteDayFromWellKeyed | src/components/history.tsx:265-274 | deleting a day keeps keys unique |
| Templates.SaveTemplate | src/components/history.tsx:291-304 | a blank name leaves the list as it was; any other name appends exactly one template at the end, and the templates before it keep their places |
| Templates.SaveMeaning | src/components/history.tsx:291-304 | the list changes exactly when the name has a non-white-space character; the new template has that name and date and a copy of the date's items |
| Templates.RenameTemplates | src/components/history.tsx:306-322 | length, order, dates and snapshots are preserved; templates with another name are unchanged; with a non-blank new name every template carrying the selected name takes it |
| Templates.RenameCounts | src/components/history.tsx:306-322 | after a rename no template keeps the old name, and the new name counts the templates that had either name |
| Templates.DeleteTemplates | src/components/history.tsx:324-337 | a template survives exactly when it does not carry the selected name |
| Templates.DeleteCounts | src/components/history.tsx:324-337 | deleting removes exactly the templates with the selected name |
| Templates.DeleteConcat | src/components/history.tsx:330-332 | deletion works template by template, so the survivors keep their order |
| Templates.LoadTemplates | src/components/history.tsx:210-228 | defined exactly when no date of the view holds an item or every template has an exercise; then one loaded template per stored template, in order, each with its last-performed date |
| Templates.RestDayLoads | src/components/history.tsx:210-226 | a template without exercises loads, with its own date, when the ledger is empty and it is the only template |
| PlainHistory.GroupedAt | src/app/history/page.tsx:43-59 | under each date the page lists exactly that date's entries, in walk order, each with its key as name and its sets unchanged |
| PlainHistory.GroupedCount | src/app/history/page.tsx:43-59 | over all dates the page lists exactly as many items as the ledger has entries |
| PlainHistory.GroupedKeys | src/app/history/page.tsx:48-50 | the keys are exactly the entry dates, with no deduplication |
| PlainHistory.SortedDatesOrder | src/app/history/page.tsx:71-75 | on valid dates `sortedDates` is a permutation of the keys, most recent first |
| WorkoutForm.Initial | src/app/page.tsx:161-165 | the form starts as 8 reps of 50 with a step that reads as 5, and the inputs read back as those numbers |
| WorkoutForm.TextRoundTrip | src/app/page.tsx:274-286 | a field printed with `String` and read back with `Number`, NaN included, is unchanged |
| WorkoutForm.ButtonsMeaning | src/app/page.tsx:250-272 | minus undoes plus; a reps minus at one rep or fewer, or a weight minus with the weight at most the step, clamps at 0; a NaN step makes both weight buttons give NaN |
| WorkoutForm.ButtonsSync | src/app/page.tsx:250-272 | every +/- button leaves the inputs showing the new numbers |
| WorkoutForm.IncreaseWeight | src/app/page.tsx:262-266 | the weight buttons leave reps and step alone |
| WorkoutForm.RepsChange | src/app/page.tsx:274-279 | the reps input shows exactly what was typed, and the reps are what `Number` reads from it, fractions included, with "" read as 0 |
| WorkoutForm.HalfRep | src/app/page.tsx:274-279 | typing "2.5" in the reps input gives two and a half reps |
| WorkoutForm.StoredSetFirst | src/app/page.tsx:290-293 | `exerciseData.find(w => w.date === date)?.sets[setIndex]` reads the first entry of the date at that index, and nothing when the date has no entry or the index is past its sets |
| WorkoutForm.CellClickNotes | src/app/page.tsx:288-298 | a click remembers the date, index and text, and the notes of the stored set in the date's first entry: a record's notes, or "" for a legacy string, a missing set or a missing date |
| WorkoutForm.CellClickRoundTrip | src/app/page.tsx:299-303 | clicking a logged set loads exactly its reps and weight, and the inputs show them |
| WorkoutForm.EmptyCellClick | src/app/page.tsx:299-303 | clicking an empty cell loads 0 reps and a NaN weight, so the set it would log reads "0xNaN" |
| WorkoutLog.LoadTableMeaning | src/app/page.tsx:188-205 | the table has one row per stored entry in order, with the same date and set texts; exactly the last row is bold; the column count fits every row |
| WorkoutLog.MaxSetsMeaning | src/app/page.tsx:205 | `maxSets` is no smaller than any row's set count, and it is 0 or some row's set count |
| WorkoutLog.SelectMeaning | src/app/page.tsx:183-216 | selecting an exercise shows a table mirroring its entries, and loads the first entry's defaults into a form whose inputs show them |
| WorkoutLog.LogSet | src/app/page.tsx:307-399 | a log keeps the exercise and the form and always ends editing |
| WorkoutLog.LogFrame | src/app/page.tsx:315-397 | a log changes only the selected exercise's key |
| WorkoutLog.LogMirrors | src/app/page.tsx:307-399 | when the table mirrors the stored entries one date per row, it still does after any log |
| WorkoutLog.LogLatest | src/app/page.tsx:340-381 | after a log that is not an edit, the logged date's row is the only bold row |
| WorkoutLog.LogEditKeepsLatest | src/app/page.tsx:318-338 | an edit leaves the rows' dates and bold marks as they were |
| WorkoutLog.LogFits | src/app/page.tsx:343-379 | `maxSets` stays no smaller than any row's set count, provided an edited index is one of the table's columns |
| WorkoutLog.LogAppendStores | src/app/page.tsx:340-370 | a log that is not an edit appends the form's set, with notes "", to the end of the date's stored entry and changes no other entry; a date without an entry gets a new entry at the end |
| WorkoutLog.NewEntryDefaults | src/app/page.tsx:383-397 | a new date's entry is appended with the current reps, weight and step as its defaults |
| WorkoutLog.LogAddsVolume | src/app/page.tsx:340-397 | a log that is not an edit adds exactly reps × weight to the volume of the date's entry, which starts from 0 for a new date |
| WorkoutLog.LogEditStores | src/app/page.tsx:318-338 | an edit writes the form's set with the clicked set's notes at the clicked index of the date's stored entry when that index is inside the sets, and otherwise appends it at the end (the corrected write, see Findings); nothing else changes, and nothing is stored when the date has no entry |
| WorkoutLog.WriteAt | src/app/page.tsx:322-330 | the corrected write: in place when the index is inside the list, otherwise appended |
| WorkoutLog.WriteAgrees | src/app/page.tsx:322-330 | for indices up to the list's length, the array write as written and the corrected write give the same list |
| WorkoutLog.WriteLeavesHoles | src/app/page.tsx:322-330 | the array write as written, at an index past the end, leaves a hole at the old length |
| WorkoutLog.HoleExample | src/app/page.tsx:322-330 | with a 4-set row the table has four columns; editing the empty fourth cell of a 1-set row writes ["8x50", hole, hole, "0xNaN"] as written, and ["8x50", "0xNaN"] corrected |
| Home.LastDate | src/app/page.tsx:102-109 | present exactly when the exercise has entries, and then one of its entry dates |
| Home.LastDateLatest | src/app/page.tsx:104-109 | on valid dates the last date is at least as recent as every entry's date |
| Home.LastWorkoutDatesLookup | src/app/page.tsx:98-114 | an exercise reads its entries' last date; an exercise that is absent or has no entries reads nothing |
| Home.LastWorkoutDatesMeaning | src/app/page.tsx:98-114 | for an exercise with entries on valid dates, the shown date is one of its entry dates and no entry is more recent |
| Home.ChoicesCover | src/app/page.tsx:219-242 | an exercise is offered exactly when it is stored or in the catalog, and marked custom exactly when it is stored |
| Home.Choices | src/app/page.tsx:227-242 | stored keys come first in key order, then the catalog names that are not stored |
| Home.ChoicesDistinct | src/app/page.tsx:219-242 | with unique keys and a catalog without repeats, no exercise is offered twice |
| Home.CustomExercises | src/app/page.tsx:221-223 | the custom exercises are exactly the stored keys that are not in the catalog |
| Home.AddCustomMeaning | src/app/page.tsx:415-422 | adding a custom exercise appends it to the custom list and to the options, keeps the earlier ones in place and selects it |
| Home.ImportByTypeof | src/app/page.tsx:139-155 | a file that does not parse is a read error; a parsed file is stored exactly when it passes the guard `typeof parsedData === 'object' && parsedData !== null`, so arrays pass and null does not; every other parsed value is reported as an invalid format |
| WeightChart.TableKeys | src/components/ui/component.tsx:52-66 | the per-date table holds each entry date once, and nothing else |
| WeightChart.TableTotal | src/components/ui/component.tsx:52-66 | a date's total is the running total `(t \|\| 0) + w` of the weights of that date's entries, across all exercises |
| WeightChart.TotalIsVolume | src/components/ui/component.tsx:52-66 | when the entries of a date have finite volumes, its total is the sum of their volumes |
| WeightChart.ChartBars | src/components/ui/component.tsx:69-79 | on valid dates each bar is an entry date with its total, no date shows twice, and bars are oldest first |
| WeightChart.ChartLatest | src/components/ui/component.tsx:79 | at most six bars; a date is left out only when six bars are shown, all at least as recent as it |
| WeightChart.LastSix | src/components/ui/component.tsx:79 | `slice(-6)` keeps the last six elements in order, or all of them when there are fewer |
| Calendar.CollectKeys | src/components/ui/calendar-demo.tsx:57-78 | the calendar's table holds each entry date once, and nothing else |
| Calendar.CollectInfo | src/components/ui/calendar-demo.tsx:62-76 | a date's info holds the sum of its entries' weights and one detail per entry of that date, in walk order, with the key and the sets unchanged |
| Calendar.CalendarInfo | src/components/ui/calendar-demo.tsx:57-78 | a date has info exactly when some entry has that date, and the info is the sum of that date's entry volumes and one detail per entry |
| Calendar.SeenDatesMeaning | src/components/ui/calendar-demo.tsx:53-59 | every entry date is seen, and each exactly once |
| Calendar.MarkedDates | src/components/ui/calendar-demo.tsx:82-85 | one mark per seen date, read as (day, month) |
| Calendar.MarkedDay | src/components/ui/calendar-demo.tsx:82-85 | a day whose formatted key has entries is marked with that day and month |
| Calendar.ClickOpens | src/components/ui/calendar-demo.tsx:102-114 | a click opens the dialog exactly when some entry has the clicked day's formatted date |
| Navigator.WorkoutClick | src/components/custom-workouts.tsx:63-67 | picking a template starts at its first exercise and selects it on the page; a template without exercises throws |
| Navigator.StepMeaning | src/components/custom-workouts.tsx:83-97 | next and previous keep the index on an exercise; each moves by one exactly when there is an exercise that way, selecting the exercise it lands on, and otherwise changes nothing |
| Navigator.PrevUndoesNext | src/components/custom-workouts.tsx:83-97 | previous undoes a next that moved, and the other way round |
| Navigator.NextTimesStops | src/components/custom-workouts.tsx:83-89 | `k` presses of next go `k` exercises further but stop at the last one |
| Navigator.CurrentInfo | src/components/custom-workouts.tsx:69-81 | no card without a template; an error exactly when the current exercise has no sets; otherwise the card names the exercise and counts its sets |
| Navigator.TargetsRoundTrip | src/components/custom-workouts.tsx:69-80 | a first set logged as `reps`x`weight` gives exactly those targets |
| CoachChat.Opening | src/components/cards-chat.tsx:125-133 | the chat opens with one assistant greeting, not loading, nothing saved |
| CoachChat.SendMeaning | src/components/cards-chat.tsx:134-144 | a blank input, or a send while loading, changes nothing; otherwise the untrimmed input becomes the user's message, the box is cleared and the chat waits |
| CoachChat.Reply | src/components/cards-chat.tsx:155-195 | the reply is the assistant's, and it is a workout exactly when the response was ok, not empty, and parsed |
| CoachChat.FailuresAreText | src/components/cards-chat.tsx:157-195 | a failed request is shown as text; an unparsable answer is shown as text quoting it, never as a workout |
| CoachChat.SendThenReceive | src/components/cards-chat.tsx:137-195 | a send and its answer add the user's message and then the reply, and leave the chat ready |
| CoachChat.SaveIdempotent | src/components/cards-chat.tsx:199-200 | saving a message twice stores it once |
| CoachChat.SaveMeaning | src/components/cards-chat.tsx:199-209 | a first save appends exactly the workout after the stored ones and adds exactly the message's index to the saved set |
| Combobox.PickTwice | src/components/ui/combobox-demo.tsx:100-102 | choosing the same option twice returns to where it started |
| Combobox.TriggerText | src/components/ui/combobox-demo.tsx:74-76 | with nothing selected or no options the trigger shows the placeholder |
| Combobox.TriggerMeaning | src/components/ui/combobox-demo.tsx:74-76 | with a selection and options, a label is shown exactly when some option has the selected value, and it is that option's label |
| Combobox.BadgeShowsLastDate | src/components/ui/combobox-demo.tsx:115-120 | over the page's last workout dates, when every entry date of the exercise is a valid "DD.MM" date, an option shows a badge exactly when its exercise has entries, and the badge is its last date |
| Combobox.AddExerciseMeaning | src/components/ui/combobox-demo.tsx:56-62 | a name is forwarded exactly when it has a non-white-space character, trimmed, and the dialog is then emptied and closed; a blank name changes nothing |
| Text.JoinSplit | src/components/history.tsx:103 | joining the pieces of `split` gives back the string |
| Text.SplitJoin | src/components/history.tsx:103 | splitting pieces joined by a separator they lack gives back the pieces |
| Text.Trim | src/components/ui/combobox-demo.tsx:57 | `trim` gives the infix of the string that removes exactly the white space at both ends |
| Text.BlankIffAllSpace | src/components/history.tsx:292 | `!s.trim()` holds exactly when every character is white space |
| JsNumber.ThousandthsRoundTrip | src/app/page.tsx:251-265 | printing reps or a weight with `String` and reading it back with `Number` gives its value |
| JsNumber.FieldRoundTrip | src/app/page.tsx:250-286 | reps or a weight printed with `String` and read back with `Number` is the same number of thousandths |
| JsNumber.OrZero | src/components/ui/component.tsx:64 | `n \|\| 0` is finite and keeps a finite `n` |
| Theme.Cycle | src/components/ui/mode-toggle.tsx:17-28 | the new theme is always light, dark or system |
| Theme.CycleOrder | src/components/ui/mode-toggle.tsx:17-28 | light goes to dark, dark goes to system, and anything else goes to light |
| Theme.ThreePressesReturn | src/components/ui/mode-toggle.tsx:17-28 | from any of the three themes, every three presses come back to it |
| Theme.PressesAdd | src/components/ui/mode-toggle.tsx:17-28 | `a` presses then `b` presses are `a + b` presses |

## Left out

- Persistence is left out. This covers localStorage, `JSON.parse`/`JSON.stringify`, `window` checks and page reloads. The stored documents are passed in and returned. Reading the custom workouts in `handleSaveWorkout` is reduced to a `readable` flag.
- Export and the network call are left out. This covers Blob and download links, `FileReader`, `fetch` and the chat API route. The chat's answer arrives as a `CoachChat.Answer`.
- Home.Import: only the rule that decides what is stored is modelled. The parsed value is reduced to its `typeof` class, and the re-serialised text that is written is not modelled.
- The clock and `Date` objects are left out. The logged date is a "DD.MM" parameter, and the calendar marks are (day, month) pairs with no year, so `currentYear` is not modelled.
- Rendering, React effects and state scheduling are left out. So are the drawer, notes dialog, date picker, chat window, settings sheet, theme meta updater, layout and providers.
- JsNumber.ParseNumber: `Number(s)` is modelled for "", digit strings and digits "." digits. Other JavaScript forms read NaN here: a sign, an exponent, surrounding white space, ".5", "5." or hex.
- WorkoutForm.ReadNumber: typed reps or a typed weight with more than three decimals read as NaN, because the form holds exact thousandths. Floating-point rounding is not modelled.
- WorkoutForm.CellClick: a clicked value without 'x' leaves `weightStr` undefined, and the source stores undefined as the weight input. The model stores "" there; the weight itself is NaN in both.
- JavaScript's ordering of integer-like object keys (such as "12") before other keys is not modelled. Keys keep insertion order. "DD.MM" keys are never integer-like.
- WorkoutLog.Select: the stored `defaultValues` are modelled as a reps count, a weight and a step string. A form field that was NaN when logged is stored as null by JSON and read back as NaN; the model keeps it as NaN.
- WorkoutLog.LogSet: `isEditing` and `editingSet` are modelled as one optional editing cell. The source sets and clears them together. Notes `editingSet?.notes \|\| ""` outside an edit are therefore "".
- WorkoutLog.LogSet: an edit of a cell past the end of the date's sets uses the corrected append `WorkoutLog.WriteAt`. The array write as written leaves holes there; `WorkoutLog.WriteAsWritten` models that write (see Findings).
- Navigator.CurrentInfo: it reads the first set with `SetValue`. For a legacy string set the source reads `.value` of a string, which is undefined, and `split` would throw.
- Templates.SaveTemplate: the template holds the items under the selected date, or [] when the date is not a key. The source stores `undefined` there.
- Home.Choices: the label of every option equals its value, as in the source, so labels are not modelled separately.

## Findings

| source | as written | input that shows it | evidently intended | confidence | as-written member | corrected member |
|---|---|---|---|---|---|---|
| src/app/page.tsx:318-337 | `sets[editingSet.setIndex] = value` on the row and on the stored entry writes at any index the table offers. Rows shorter than `maxSets` show empty cells, so the index can lie past the end of the sets, leaving holes that `JSON.stringify` saves as `null`; the next load then reads `set.value` of null and throws | a row with 4 sets and a row "8x50" with 1 set; click the empty fourth cell of the short row and log | an edit of an empty cell adds the set at the end of the list, leaving no holes | not executed | WorkoutLog.WriteLeavesHoles | WorkoutLog.WriteAt |
