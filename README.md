# auderis-infra core, modelled in Dafny

This project models five small pieces of the auderis-infra Java libraries and proves properties about them.

- **`ResourceManager`** is a scoped cleanup stack. Acquired resources are pushed together with their cleanup action, and savepoint markers can be pushed between them.
  - `rollbackToSavepoint` unwinds the stack down to a savepoint. `close` unwinds all of it.
  - Both run every cleanup, even when some fail. They then throw one exception that carries every failure as a suppressed exception.
  - Modules: `ResourceStack` (entries and the meaning of an unwind) and `ResourceManagement` (the class). `ResourceManagerScenarios` holds client code checked against the contracts.
- **`CalendarTable`** computes a month's calendar grid of whole weeks starting on a chosen day of week. It gives the grid's first and last days, a date's row, a cell's style and day-of-week tests.
  - Module `CalendarTable` builds on `IsoCalendar`, which holds the ISO proleptic Gregorian calendar as `java.time` computes it: epoch days, ISO day-of-week numbers (Monday = 1) and the `TemporalAdjusters` used here.
- **`Separator`** (module `Separators`) and **`JoinHelper`** (module `JoinHelpers`) supply a separator before each item of a list, blank before the first one.
  - Module `Joining` holds their shared parts: the separator text, the joined text, and a `StringBuilder`.
- **`InstrumentationType.forType`** (module `Instrumentation`) maps an annotation's qualified name to a kind of feature-toggle instrumentation.

Modelling choices:

- `ResourceManager`, `Separator`, `JoinHelper` and `StringBuilder` are classes whose methods update their fields. All other code is pure functions.
- What a supplier or a cleanup does when called is fixed in advance, as data in the call or in the stack entry.
- A ghost field `released` records, in order, every cleanup that has been run.
- A savepoint is an object with an `id`:
  - the unwinding loop stops at the savepoint that *is* the handle (reference equality);
  - validation looks for a savepoint that *equals* it, which compares ids only.
- Dates inside the calendar grid are represented by their epoch day.

When cleanups fail, the code throws a fresh `RuntimeException("Rollback failed")` or `RuntimeException("Failed to close resource manager")` with no cause. Every failure, the first included, is attached to it as suppressed, in the order the failures happened. `Aggregate(message, suppressed)` models that.

## Model

| member | source | states |
|---|---|---|
| ResourceStack.FaultsOfEveryFailure | infra-tools/src/main/java/cz/auderis/infra/tools/ResourceManager.java:113-121 | the collected faults are empty exactly when no cleanup of the run failed, and hold the fault of every failing cleanup |
| ResourceStack.Disposers | infra-tools/src/main/java/cz/auderis/infra/tools/ResourceManager.java:131-133 | the entries whose cleanup a full unwind runs, never more than the stack holds; which entries they are is stated by `DisposersAreTheDisposerEntries` |
| ResourceStack.ReleaseOrder | infra-tools/src/main/java/cz/auderis/infra/tools/ResourceManager.java:131-143 | the cleanups an unwind runs, at most one per entry; their order and multiplicity are stated by `ReleaseReversesRegistration` and `EveryDisposerReleasedOnce` |
| ResourceStack.Faults | infra-tools/src/main/java/cz/auderis/infra/tools/ResourceManager.java:134-141 | one fault per failing cleanup at most; which faults, and in what order, is stated by `FaultsOfEveryFailure` and `FaultsInEncounterOrder` |
| ResourceStack.DisposersAreTheDisposerEntries | infra-tools/src/main/java/cz/auderis/infra/tools/ResourceManager.java:63-84 | the registered cleanups are exactly the disposer entries of the stack |
| ResourceStack.AggregateFailure | infra-tools/src/main/java/cz/auderis/infra/tools/ResourceManager.java:116-125 | nothing is thrown exactly when no cleanup failed; otherwise one exception with the given message and a non-empty suppressed list |
| ResourceStack.RollbackRejection | infra-tools/src/main/java/cz/auderis/infra/tools/ResourceManager.java:100-106 | null handle gives NPE, a non-savepoint gives "Invalid savepoint", a savepoint with no id-equal entry gives "Savepoint not registered"; accepted exactly when an id-equal savepoint is on the stack |
| ResourceStack.Registered | infra-tools/src/main/java/cz/auderis/infra/tools/ResourceManager.java:173-181 | `contains` compares by `equals`, so the savepoint object itself, once on the stack, is always found |
| ResourceStack.UnwindCut | infra-tools/src/main/java/cz/auderis/infra/tools/ResourceManager.java:108-111 | the rollback stops at the topmost entry that is the savepoint object itself, or drains the stack when that object is absent |
| ResourceStack.UnwindCutAt | infra-tools/src/main/java/cz/auderis/infra/tools/ResourceManager.java:108-111 | when the savepoint object sits at position k with no copy above it, the rollback stops at k |
| ResourceStack.UnwindCutAbsent | infra-tools/src/main/java/cz/auderis/infra/tools/ResourceManager.java:108-111 | when the savepoint object is not on the stack, the rollback drains the stack |
| ResourceStack.ReleaseOrderAppend | infra-tools/src/main/java/cz/auderis/infra/tools/ResourceManager.java:108-122 | unwinding a stack runs the upper part's cleanups before the lower part's |
| ResourceStack.LastPushedReleasedFirst | infra-tools/src/main/java/cz/auderis/infra/tools/ResourceManager.java:131-133 | the disposer pushed last is the first one run; a savepoint on top runs nothing |
| ResourceStack.ReleaseReversesRegistration | infra-tools/src/main/java/cz/auderis/infra/tools/ResourceManager.java:129-147 | cleanups are run in exactly the reverse of registration order |
| ResourceStack.EveryDisposerReleasedOnce | infra-tools/src/main/java/cz/auderis/infra/tools/ResourceManager.java:129-147 | every registered cleanup is run exactly once (as multisets), failing or not |
| ResourceStack.FaultsInEncounterOrder | infra-tools/src/main/java/cz/auderis/infra/tools/ResourceManager.java:113-121 | faults of cleanups run earlier precede faults of cleanups run later |
| ResourceStack.PushDisposerKeepsWellFormed | infra-tools/src/main/java/cz/auderis/infra/tools/ResourceManager.java:63-84 | pushing a disposer keeps the savepoint invariant (ids minted, increasing, never adjacent) |
| ResourceStack.PushSavepointKeepsWellFormed | infra-tools/src/main/java/cz/auderis/infra/tools/ResourceManager.java:86-97 | pushing a savepoint with id `lastId` on a non-savepoint top and incrementing `lastId` keeps the invariant |
| ResourceStack.PrefixKeepsWellFormed | infra-tools/src/main/java/cz/auderis/infra/tools/ResourceManager.java:108-122 | what a rollback or close leaves on the stack keeps the invariant |
| ResourceStack.RollbackToOwnSavepoint | infra-tools/src/main/java/cz/auderis/infra/tools/ResourceManager.java:99-122 | a savepoint of this manager is accepted, the rollback stops exactly at it, and the savepoint itself runs nothing |
| ResourceStack.ConsumedSavepointIsRejected | infra-tools/src/main/java/cz/auderis/infra/tools/ResourceManager.java:104-105 | once a rollback has popped a savepoint, rolling back to it again is rejected as not registered |
| ResourceStack.ForeignSavepointDrainsStack | infra-tools/src/main/java/cz/auderis/infra/tools/ResourceManager.java:173-181 | an id-equal savepoint of another manager passes validation but never stops the loop: the whole stack is unwound |
| ResourceManagement.AccumulatedIsAggregate | infra-tools/src/main/java/cz/auderis/infra/tools/ResourceManager.java:113-125 | creating the exception at the first fault and adding each fault as suppressed, cleanup by cleanup, yields exactly the aggregate failure: nothing without faults, otherwise all faults in encounter order |
| ResourceManagement.Collect | infra-tools/src/main/java/cz/auderis/infra/tools/ResourceManager.java:113-120 | one catch step: a cleanup that runs cleanly leaves the pending exception alone; a failing one creates the aggregate if needed and adds its fault, and the pending exception is always an aggregate |
| ResourceManagement.PopTowards | infra-tools/src/main/java/cz/auderis/infra/tools/ResourceManager.java:108-111 | popping the savepoint object itself is where the rollback cut lies; popping anything else keeps the savepoint object out of the popped entries |
| ResourceManagement.ResourceManager.constructor | infra-tools/src/main/java/cz/auderis/infra/tools/ResourceManager.java:16-18 | a new manager has an empty stack and has run nothing |
| ResourceManagement.ResourceManager.GetInstance | infra-tools/src/main/java/cz/auderis/infra/tools/ResourceManager.java:24-40 | null arguments throw NPE; supplier exceptions propagate (checked ones wrapped); a value is pushed with its cleanup and returned; null is returned without a push; nothing else changes |
| ResourceManagement.ResourceManager.GetCloseableInstance | infra-tools/src/main/java/cz/auderis/infra/tools/ResourceManager.java:20-22 | as `GetInstance`, with the resource's own `close` as its cleanup |
| ResourceManagement.ResourceManager.GetOptionalInstance | infra-tools/src/main/java/cz/auderis/infra/tools/ResourceManager.java:46-61 | null arguments throw NPE; a supplier exception or null result gives empty and pushes nothing; a value is pushed and returned |
| ResourceManagement.ResourceManager.GetOptionalCloseableInstance | infra-tools/src/main/java/cz/auderis/infra/tools/ResourceManager.java:42-44 | as `GetOptionalInstance`, with the resource's own `close` as its cleanup |
| ResourceManagement.ResourceManager.Register | infra-tools/src/main/java/cz/auderis/infra/tools/ResourceManager.java:63-68 | `register(null)` changes nothing; otherwise exactly one disposer is pushed |
| ResourceManagement.ResourceManager.AddCleanup | infra-tools/src/main/java/cz/auderis/infra/tools/ResourceManager.java:70-76 | a null value or cleanup throws NPE and changes nothing; otherwise exactly one disposer is pushed |
| ResourceManagement.ResourceManager.AddRunnableCleanup | infra-tools/src/main/java/cz/auderis/infra/tools/ResourceManager.java:78-84 | a null action throws NPE; otherwise one disposer with no value is pushed |
| ResourceManagement.ResourceManager.CreateSavepoint | infra-tools/src/main/java/cz/auderis/infra/tools/ResourceManager.java:86-97 | a savepoint on top is returned unchanged; otherwise a new savepoint with id `lastId` is pushed and `lastId` incremented; either way it is the top entry |
| ResourceManagement.ResourceManager.RollbackToSavepoint | infra-tools/src/main/java/cz/auderis/infra/tools/ResourceManager.java:99-126 | a bad handle throws before anything is popped; otherwise the stack is cut at `UnwindCut`, exactly the disposers above the cut are run top first, and the faults are thrown together |
| ResourceManagement.ResourceManager.UnwindTo | infra-tools/src/main/java/cz/auderis/infra/tools/ResourceManager.java:107-125 | the loop stops right after popping the savepoint object (or drains the stack), runs exactly the popped disposers top first, and throws their faults together |
| ResourceManagement.ResourceManager.Close | infra-tools/src/main/java/cz/auderis/infra/tools/ResourceManager.java:128-147 | the stack ends empty, every disposer is run top first, savepoints are discarded, and the faults are thrown together |
| ResourceManagerScenarios.CloseThree | infra-tools/src/test/java/cz/auderis/infra/tools/ResourceManagerTest.java:30-49 | closing three resources runs them in reverse order and throws exactly the one fault of the failing cleanup, or nothing |
| ResourceManagerScenarios.CloseInReverseOrder | infra-tools/src/test/java/cz/auderis/infra/tools/ResourceManagerTest.java:14-27 | three resources are closed in reverse order of acquisition and nothing is thrown |
| ResourceManagerScenarios.CloseDespiteFailure | infra-tools/src/test/java/cz/auderis/infra/tools/ResourceManagerTest.java:30-49 | when resource 2's cleanup fails, all three still run in reverse order and one exception with that single suppressed fault is thrown; a second close runs and throws nothing |
| ResourceManagerScenarios.RollBackNested | infra-tools/src/main/java/cz/auderis/infra/tools/ResourceManager.java:99-126 | rolling back to a savepoint between r2 and r3 runs r4 then r3 and keeps r1 and r2 |
| ResourceManagerScenarios.ScopedRollback | infra-tools/src/main/java/cz/auderis/infra/tools/ResourceManager.java:99-147 | after that rollback the savepoint is rejected as not registered, and close runs r2 then r1 |
| ResourceManagerScenarios.CollapsedSavepoints | infra-tools/src/main/java/cz/auderis/infra/tools/ResourceManager.java:86-97 | two savepoints requested in a row are the same savepoint, and the stack grows by at most one entry |
| ResourceManagerScenarios.ForeignSavepointDrains | infra-tools/src/main/java/cz/auderis/infra/tools/ResourceManager.java:104-111 | rolling back to another manager's id-equal savepoint also runs the cleanup below this manager's own savepoint |
| IsoCalendar.PreviousOrSame | infra-tools/src/main/java/cz/auderis/infra/tools/time/CalendarTable.java:50 | the result is on the requested day of week and 0 to 6 days before the date |
| IsoCalendar.NextOrSame | infra-tools/src/main/java/cz/auderis/infra/tools/time/CalendarTable.java:80 | the result is on the requested day of week and 0 to 6 days after the date |
| IsoCalendar.Next | infra-tools/src/main/java/cz/auderis/infra/tools/time/CalendarTable.java:52 | the result is on the requested day of week and 1 to 7 days after the date |
| IsoCalendar.Previous | infra-tools/src/main/java/cz/auderis/infra/tools/time/CalendarTable.java:99 | the result is on the requested day of week and 1 to 7 days before the date |
| IsoCalendar.PreviousOrSameIsLatest | infra-tools/src/main/java/cz/auderis/infra/tools/time/CalendarTable.java:66 | `previousOrSame` gives the latest such day not after the date |
| IsoCalendar.NextOrSameIsEarliest | infra-tools/src/main/java/cz/auderis/infra/tools/time/CalendarTable.java:96 | `nextOrSame` gives the earliest such day not before the date |
| IsoCalendar.NextIsEarliest | infra-tools/src/main/java/cz/auderis/infra/tools/time/CalendarTable.java:52 | `next` gives the earliest such day strictly after the date |
| IsoCalendar.PreviousIsLatest | infra-tools/src/main/java/cz/auderis/infra/tools/time/CalendarTable.java:99 | `previous` gives the latest such day strictly before the date |
| IsoCalendar.MonthsInOrder | infra-tools/src/main/java/cz/auderis/infra/tools/time/CalendarTable.java:145-155 | every day of an earlier month has a smaller epoch day than every day of a later month |
| CalendarTable.DateStream | infra-tools/src/main/java/cz/auderis/infra/tools/time/CalendarTable.java:45-54 | 4 to 6 whole weeks of consecutive days; the first on `firstDayOfWeek` and 0 to 6 days before day 1; the last 0 to 6 days after the month's last day |
| CalendarTable.DateStreamCoversMonth | infra-tools/src/main/java/cz/auderis/infra/tools/time/CalendarTable.java:48-53 | every day of the month is a cell of the grid |
| CalendarTable.DateStreamStartsLatest | infra-tools/src/main/java/cz/auderis/infra/tools/time/CalendarTable.java:48-50 | the grid starts on the latest `firstDayOfWeek` on or before day 1 |
| CalendarTable.DateStreamEndsEarliest | infra-tools/src/main/java/cz/auderis/infra/tools/time/CalendarTable.java:51-53 | the grid ends just before the earliest `firstDayOfWeek` after the month's last day |
| CalendarTable.GridEndsBeforeNextWeek | infra-tools/src/main/java/cz/auderis/infra/tools/time/CalendarTable.java:51-53 | the day after the grid's last cell is the first `firstDayOfWeek` after the month's last day |
| CalendarTable.FirstDay | infra-tools/src/main/java/cz/auderis/infra/tools/time/CalendarTable.java:62-68 | for any date, the adjuster gives the first cell of its month's grid |
| CalendarTable.LastDay | infra-tools/src/main/java/cz/auderis/infra/tools/time/CalendarTable.java:76-82 | the result is on `lastDayOfWeek`, at or after the month's end and fewer than 7 days after it |
| CalendarTable.LastDayEndsDateStream | infra-tools/src/main/java/cz/auderis/infra/tools/time/CalendarTable.java:76-82 | with weeks ending the day before they start, `lastDay` is the grid's last cell |
| CalendarTable.LastDayMinWeeksBounds | infra-tools/src/main/java/cz/auderis/infra/tools/time/CalendarTable.java:92-107 | the result is on `lastDayOfWeek` and never before `lastDay`; it equals `lastDay` for at most 4 weeks; otherwise it is at least `7*minNumberOfWeeks` days after the `lastDayOfWeek` before the month and is the later of the two candidates |
| CalendarTable.LastDayMinWeeks | infra-tools/src/main/java/cz/auderis/infra/tools/time/CalendarTable.java:92-107 | as intended, never before `lastDay`, and equal to it when at most 4 weeks are asked for |
| CalendarTable.LastDayMinWeeksSpansWeeks | infra-tools/src/main/java/cz/auderis/infra/tools/time/CalendarTable.java:84-107 | the grid then spans at least `minNumberOfWeeks` weeks |
| CalendarTable.WeekNumberIsRow | infra-tools/src/main/java/cz/auderis/infra/tools/time/CalendarTable.java:193-205 | an error exactly for dates before the grid's first day; otherwise the row w >= 1 whose seven days contain the date |
| CalendarTable.WeekNumber | infra-tools/src/main/java/cz/auderis/infra/tools/time/CalendarTable.java:193-205 | as intended, a row is at least 1, and the only error is "Date is before table start" for the queried date |
| CalendarTable.WeekNumberWithinGrid | infra-tools/src/main/java/cz/auderis/infra/tools/time/CalendarTable.java:185-205 | every day of the month has a row between 1 and the grid's number of rows |
| CalendarTable.BelongsToMonthIffWithin | infra-tools/src/main/java/cz/auderis/infra/tools/time/CalendarTable.java:145-155 | a date belongs to the month exactly when its epoch day lies between the month's first and last day |
| CalendarTable.BelongsToMonth | infra-tools/src/main/java/cz/auderis/infra/tools/time/CalendarTable.java:145-155 | true exactly when the date's year and month are the reference month |
| CalendarTable.DayStyleClassifies | infra-tools/src/main/java/cz/auderis/infra/tools/time/CalendarTable.java:165-183 | `NOT_IN_MONTH` exactly outside the month; `WEEKEND` exactly for a Saturday or Sunday in the month (bitmask bits 6 and 7); `WEEKDAY` exactly for the other days of the month |
| CalendarTable.DayStyle | infra-tools/src/main/java/cz/auderis/infra/tools/time/CalendarTable.java:165-183 | `NOT_IN_MONTH` exactly when the date is outside the month; `WEEKEND` exactly for a Saturday or Sunday inside it |
| CalendarTable.WeekendBitmaskSelects | infra-tools/src/main/java/cz/auderis/infra/tools/time/CalendarTable.java:240-248 | the bit of a day survives masking with `WEEKEND_BITMASK` exactly for Saturday and Sunday |
| CalendarTable.Get | infra-tools/src/main/java/cz/auderis/infra/tools/time/CalendarTable.java:197-199 | `get` returns the day of week (1 to 7) and refuses the epoch day |
| CalendarTable.WeekdaysAndWeekendPartition | infra-tools/src/main/java/cz/auderis/infra/tools/time/CalendarTable.java:123-137 | as intended, every date is a weekday or a weekend day and never both; the weekend days are Saturday and Sunday |
| CalendarTable.IsAnyDayOfWeek | infra-tools/src/main/java/cz/auderis/infra/tools/time/CalendarTable.java:115-121 | as intended, true exactly when the date's day of week is a candidate |
| CalendarTable.IsWeekday | infra-tools/src/main/java/cz/auderis/infra/tools/time/CalendarTable.java:127-129 | as intended, true exactly for Monday to Friday |
| CalendarTable.IsWeekend | infra-tools/src/main/java/cz/auderis/infra/tools/time/CalendarTable.java:135-137 | as intended, true exactly for Saturday and Sunday |
| CalendarTable.IsAnyDayOfWeekAsWritten | infra-tools/src/main/java/cz/auderis/infra/tools/time/CalendarTable.java:115-121 | as written, the query never matches: an `Integer` is looked up in a set of `DayOfWeek` |
| CalendarTable.IsWeekdayAsWritten | infra-tools/src/main/java/cz/auderis/infra/tools/time/CalendarTable.java:127-129 | as written, false for every date |
| CalendarTable.IsWeekendAsWritten | infra-tools/src/main/java/cz/auderis/infra/tools/time/CalendarTable.java:135-137 | as written, false for every date |
| CalendarTable.WeekendQueryMissesSaturday | infra-tools/src/main/java/cz/auderis/infra/tools/time/CalendarTable.java:127-137 | as written, Saturday 1970-01-03 is neither a weekday nor a weekend day, though it is a weekend day |
| CalendarTable.WeekNumberAsWritten | infra-tools/src/main/java/cz/auderis/infra/tools/time/CalendarTable.java:196-197 | as written, `weekNumber` always throws, because `LocalDate.get` refuses `EPOCH_DAY` |
| CalendarTable.WeekNumberRefusesFirstOfMonth | infra-tools/src/main/java/cz/auderis/infra/tools/time/CalendarTable.java:193-205 | as written, `weekNumber` throws even for day 1, whose intended row is 1 |
| CalendarTable.LastDayMinWeeksAsWritten | infra-tools/src/main/java/cz/auderis/infra/tools/time/CalendarTable.java:92-107 | as written, the result is `lastDay` for at most 4 weeks, and the adjuster throws for more, because `LocalDate.get` refuses `EPOCH_DAY` |
| CalendarTable.LastDayMinWeeksRefusesFiveWeeks | infra-tools/src/main/java/cz/auderis/infra/tools/time/CalendarTable.java:97-103 | as written, a minimum of 5 weeks throws, though an intended result exists |
| Joining.JoinLength | infra-tools/src/test/java/cz/auderis/infra/tools/SeparatorTest.java:19-31 | joining n items adds exactly n - 1 separators |
| Joining.JoinStartsWithFirstItem | infra-tools/src/main/java/cz/auderis/infra/tools/Separator.java:3-13 | the joined text starts with the first item: no leading separator |
| Joining.JoinAppend | infra-tools/src/main/java/cz/auderis/infra/tools/Separator.java:63-69 | joining two runs of items puts one separator between their joined texts |
| Joining.JoinSnoc | infra-tools/src/test/java/cz/auderis/infra/tools/SeparatorTest.java:24-27 | one more item appends the separator and the item |
| Joining.SeparatorText | infra-tools/src/main/java/cz/auderis/infra/tools/Separator.java:44-51 | `null` becomes `", "`; any other text is kept |
| Joining.StringBuilder.Append | infra-tools/src/main/java/cz/auderis/infra/tools/Separator.java:63-69 | appending keeps the existing contents and adds the text at the end |
| Separators.Separator.Default | infra-tools/src/main/java/cz/auderis/infra/tools/Separator.java:25-27 | the separator is `", "` and the next request is blank |
| Separators.Separator.OfChar | infra-tools/src/main/java/cz/auderis/infra/tools/Separator.java:34-36 | the separator is the one-character string, as for the string constructor |
| Separators.Separator.constructor | infra-tools/src/main/java/cz/auderis/infra/tools/Separator.java:44-53 | `null` means `", "`; the next request is blank |
| Separators.Separator.Reset | infra-tools/src/main/java/cz/auderis/infra/tools/Separator.java:59-61 | the next request is blank again |
| Separators.Separator.To | infra-tools/src/main/java/cz/auderis/infra/tools/Separator.java:63-69 | the builder keeps its contents and gains nothing for the first item and the separator afterwards; later requests are not first |
| Separators.Separator.ToString | infra-tools/src/main/java/cz/auderis/infra/tools/Separator.java:71-78 | `""` for the first item and the separator afterwards; later requests are not first |
| Separators.AppendItems | infra-tools/src/test/java/cz/auderis/infra/tools/SeparatorTest.java:41-53 | writing the separator with `to` before each item appends the items joined by the separator, after one leading separator only if the run did not start fresh |
| Separators.AppendItemsByText | infra-tools/src/test/java/cz/auderis/infra/tools/SeparatorTest.java:19-31 | appending the separator object before each item does the same through `toString` |
| Separators.JoinFiveDefault | infra-tools/src/test/java/cz/auderis/infra/tools/SeparatorTest.java:11-31 | items 1 to 5 with the default separator give "1, 2, 3, 4, 5" |
| Separators.JoinFiveByChar | infra-tools/src/test/java/cz/auderis/infra/tools/SeparatorTest.java:55-72 | items 1 to 5 with the character 'x' give "1x2x3x4x5" |
| Separators.JoinFiveBlank | infra-tools/src/test/java/cz/auderis/infra/tools/SeparatorTest.java:33-53 | items 1 to 5 with the empty separator give "12345" |
| Separators.ResetMidway | infra-tools/src/test/java/cz/auderis/infra/tools/SeparatorTest.java:74-100 | a reset after the third item gives "1, 2, 34, 5" |
| JoinHelpers.JoinHelper.Default | infra-tools/src/main/java/cz/auderis/infra/tools/JoinHelper.java:8-10 | the separator is `", "` and `firstItem` is false |
| JoinHelpers.JoinHelper.OfChar | infra-tools/src/main/java/cz/auderis/infra/tools/JoinHelper.java:12-14 | the separator is the one-character string and `firstItem` is false |
| JoinHelpers.JoinHelper.constructor | infra-tools/src/main/java/cz/auderis/infra/tools/JoinHelper.java:16-24 | `null` means `", "`; `firstItem` is left false, so the first request already yields the separator |
| JoinHelpers.JoinHelper.Reset | infra-tools/src/main/java/cz/auderis/infra/tools/JoinHelper.java:26-28 | the next request is blank |
| JoinHelpers.JoinHelper.Text | infra-tools/src/main/java/cz/auderis/infra/tools/JoinHelper.java:52-59 | the text the next request yields: blank while `firstItem` is set, the separator otherwise |
| JoinHelpers.JoinHelper.Length | infra-tools/src/main/java/cz/auderis/infra/tools/JoinHelper.java:30-33 | the length of the text the next `toString` returns: 0 when `firstItem` is set or the separator is empty; no state change |
| JoinHelpers.JoinHelper.CharAt | infra-tools/src/main/java/cz/auderis/infra/tools/JoinHelper.java:35-38 | as written, the character with code 0 for every index; no state change |
| JoinHelpers.JoinHelper.CharAtIntended | infra-tools/src/main/java/cz/auderis/infra/tools/JoinHelper.java:35-38 | as intended by `CharSequence`, the text's character at an index below `length()`, an index error otherwise |
| JoinHelpers.JoinHelper.SubSequence | infra-tools/src/main/java/cz/auderis/infra/tools/JoinHelper.java:40-50 | blank and clears `firstItem` after a reset, whatever the bounds; otherwise the separator's slice, or an index error unless 0 <= start <= end <= length |
| JoinHelpers.JoinHelper.ToString | infra-tools/src/main/java/cz/auderis/infra/tools/JoinHelper.java:52-59 | the text `length()` measured: blank once after a reset, the separator otherwise |
| JoinHelpers.CharAtBreaksCharSequence | infra-tools/src/main/java/cz/auderis/infra/tools/JoinHelper.java:35-38 | as written, `charAt(0)` differs from the first character of the text, which the intended `charAt` returns |
| JoinHelpers.FreshThenReset | infra-tools/src/main/java/cz/auderis/infra/tools/JoinHelper.java:16-28 | a new helper yields ", " at once; after a reset one blank, then ", " again |
| JoinHelpers.ResetSubSequence | infra-tools/src/main/java/cz/auderis/infra/tools/JoinHelper.java:40-50 | after a reset, `subSequence` is blank even out of bounds; then it slices, and refuses out-of-bounds requests |
| Instrumentation.ForType | infra-toggle/instrument/src/main/java/cz/auderis/infra/toggle/instrument/proc/InstrumentationType.java:13-21 | the three supported names map to their kinds (the kind's own annotation name); any other name throws `IllegalArgumentException("Unsupported annotation type: " + qname)` |
| Instrumentation.AnnotationName | infra-toggle/instrument/src/main/java/cz/auderis/infra/toggle/instrument/proc/InstrumentationType.java:16-18 | each kind comes from one of the three supported annotation names |
| Instrumentation.ForTypeOfAnnotationName | infra-toggle/instrument/src/main/java/cz/auderis/infra/toggle/instrument/proc/InstrumentationType.java:15-18 | every kind is recognised from its own annotation's name |
| Instrumentation.SupportedNamesDistinct | infra-toggle/instrument/src/main/java/cz/auderis/infra/toggle/instrument/proc/InstrumentationType.java:15-18 | different supported names give different kinds |

## Left out

- `CalendarTable.isSpecialDay` depends on a time zone's offset-transition rules. Those rules are data outside the code, so it is not modelled.
- The `Stream` returned by `dateStream` is modelled as the sequence of its epoch days. Adjusted dates are epoch days rather than `LocalDate` objects. A "month specification" is a `YearMonth`, or the `LocalDate` it is taken from; other `TemporalAccessor` kinds are not modelled.
- `LocalDate`'s year range and the `DateTimeException` for dates outside it are not modelled. Integers are unbounded.
- `Objects.requireNonNull` checks in `CalendarTable` are left out, since Dafny values are never null. In `ResourceManager`, null arguments are modelled with `Option`, and the NPE is modelled.
- `ResourceManager` leaves out the following:
  - an `Error` (not an `Exception`) thrown by a cleanup or by a supplier: from a cleanup it would escape in the middle of the loop, and from the supplier of `getOptionalInstance` it would escape instead of giving an empty result; only `Exception` is modelled;
  - `int` overflow of `lastId`, which is a `nat` here;
  - thread safety;
  - the real work a cleanup does, which is recorded only as the order in the ghost `released` log;
  - `ResourceCleanup` and `Callable`, which are replaced by outcomes fixed in advance.
- `AutoCloseable::close`: for the one-argument `getInstance`, `getOptionalInstance` and `register`, the resource's own `close` is passed in as a `Cleanup`.
- Stack-trace details of the thrown exceptions are not modelled. The suppressed list is modelled.
- `Separator`'s and `JoinHelper`'s constructors are modelled on the text of a non-`String` `CharSequence` (`toString()`), so the `instanceof String` branch does not show. The IDE debug-renderer annotation is left out.
- JoinHelpers.JoinHelper.Length: strings are sequences of Unicode characters, not UTF-16 code units. For a separator outside the Basic Multilingual Plane, Java's `length()`, `charAt` and `subSequence` count surrogate halves, so the model's lengths and indices differ there, and half a surrogate pair (such as `subSequence(0, 1)` of such a separator) cannot be represented. The same holds for `Separators.Separator.OfChar` and `JoinHelpers.JoinHelper.OfChar`, whose `char` is one whole character here.
- Items in the separator scenarios are decimal strings. `StringBuilder.append(int)` is modelled by appending the number's text.
- `StringBuilder.append(CharSequence)` reads a `JoinHelper` through `length()` and `charAt`. Only `charAt` is modelled, not that JDK loop.
- `InstrumentationType.forType` takes the annotation's qualified name. The compiler's `TypeElement` it comes from is not part of this model, and neither is the annotation processor that calls it.

## Findings

| source | as written | input that shows it | evidently intended | confidence | as-written member | corrected member |
|---|---|---|---|---|---|---|
| infra-tools/src/main/java/cz/auderis/infra/tools/time/CalendarTable.java:115-121 | `candidates.contains(t.get(DAY_OF_WEEK))` looks up an `int`, boxed to `Integer`, in a `Set<DayOfWeek>`, so it is never found; `isWeekday()` and `isWeekend()` are therefore always false | `isWeekend()` on Saturday 1970-01-03 gives false | look up the date's `DayOfWeek`, so that weekdays and weekend days split the week | high; not executed | CalendarTable.IsAnyDayOfWeekAsWritten, CalendarTable.WeekendQueryMissesSaturday | CalendarTable.IsAnyDayOfWeek, CalendarTable.WeekdaysAndWeekendPartition |
| infra-tools/src/main/java/cz/auderis/infra/tools/time/CalendarTable.java:196-199 | `tableStart.get(ChronoField.EPOCH_DAY)`: `LocalDate.get` throws `UnsupportedTemporalTypeException` for `EPOCH_DAY`, whose values do not fit an `int`, so `weekNumber` always throws | `weekNumber(LocalDate.of(2024, 5, 1), MONDAY)` | read the epoch day with `getLong` and return the 1-based row | high; not executed | CalendarTable.WeekNumberAsWritten, CalendarTable.WeekNumberRefusesFirstOfMonth | CalendarTable.WeekNumberIsRow, CalendarTable.WeekNumberWithinGrid |
| infra-tools/src/main/java/cz/auderis/infra/tools/time/CalendarTable.java:101 | `minEnd.get(ChronoField.EPOCH_DAY) > result.get(ChronoField.EPOCH_DAY)` throws for any `minNumberOfWeeks > 4` | `lastDay(SUNDAY, 6)` applied to any `LocalDate` | compare the epoch days with `getLong` and extend the grid to at least `minNumberOfWeeks` weeks | high; not executed | CalendarTable.LastDayMinWeeksAsWritten, CalendarTable.LastDayMinWeeksRefusesFiveWeeks | CalendarTable.LastDayMinWeeksBounds, CalendarTable.LastDayMinWeeksSpansWeeks |
| infra-tools/src/main/java/cz/auderis/infra/tools/JoinHelper.java:35-38 | `charAt` returns `'\0'` for every index, against the `CharSequence` contract that it agree with `toString()`; `StringBuilder.append(CharSequence)` reads a non-`String` sequence through `charAt`, so appending a helper appends NUL characters | `new JoinHelper().charAt(0)` gives `'\0'` while `toString()` is `", "` | return the character of the current text at that index | medium; not executed | JoinHelpers.JoinHelper.CharAt, JoinHelpers.CharAtBreaksCharSequence | JoinHelpers.JoinHelper.CharAtIntended |
