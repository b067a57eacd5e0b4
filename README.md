# Recurring tasks: a verified model of the generation engine

This project models the recurring-task engine of the workwise task manager in
Dafny. A user keeps *recurring task templates*: a title, a recurrence rule
(daily, weekly, monthly or yearly), an interval, optional weekdays, a start
date, an optional end date and an optional maximum number of occurrences.
Each template also has a schedule state: IsActive, LastGeneratedDate and
NextDueDate. Once a day a hosted background service runs generation. Every
active template whose NextDueDate has come emits one task per due occurrence
up to today. The template then moves on to its next due date, or is
deactivated when its end date or occurrence limit is reached.

The model has these parts.

- `Calendar` holds proleptic Gregorian dates with .NET's day numbering and
  weekday numbering (0 = Sunday). It also has `AddDays`, `AddMonths` and
  `AddYears` with .NET's clamping of the day of month.
- `Models` holds the template record, the recurrence enumeration with its
  integer values, and the task record.
- `Recurrence` is the next-due-date calculator. It includes the weekly rule's
  parse of the DaysOfWeek text: split on commas, parse as integers, sort
  ascending. The calculator's two exceptions are results: `Overflow` from
  int.Parse and `InvalidOperation` from First() on an empty list.
- `Generation` has the continuation predicate and the occurrence count the
  database reports. `Generate` is a pure specification of one template's
  generation loop. `GenerationProperties` proves what that loop does.
- `Service` models the service's data context as a store: the templates, the
  saved tasks, and the tasks added but not yet saved. The class
  `RecurringTaskService` holds that state in fields, and its methods update
  it in place.
  - `GenerateOccurrences` is the imperative generation loop. It is proved
    against `Generate`.
  - `GenerateTasksForAllActiveTemplates` is the foreach over the due
    templates. Each template's failure is caught. It is proved against the
    fold `Batch`.
  - `CreateTemplate` and `ToggleTemplateStatus` are proved against
    `Prepared` and `Toggled`.
  - `ServiceProperties` proves what these operations promise over the store.
- `Background` models the hosted service. The first run is at 02:00 today,
  or tomorrow when 02:00 has passed. After that there is one run per timer
  tick. Each run uses a fresh scope, and a run's exception is caught.

The database's occurrence count only sees saved tasks. Tasks added during one
call are saved when the call ends, so the count stays fixed for the whole
generation loop. The model proves this rather than assuming it: the loop
invariant re-reads the count (`CountReadsKey`). One consequence shows up in
`CatchUpCanExceedMax`. A template that is several days behind emits one task
for every missed day in a single run, even past MaxOccurrences: the limit is
checked only against the tasks saved before the run.

A template whose calculation throws has a different fate. Its tasks stay
added but unsaved, and its in-memory state stays as it was when the
exception was thrown. The next template in the same batch that saves writes
those tasks too (`FailedTasksSavedByNextSave`). Tasks still unsaved when a
background run ends are dropped with that run's scope
(`NextRunDiscardsPending`).

## Model

| member | source | states |
|---|---|---|
| Models.RecurrenceTypeOf | Models/RecurringTaskTemplate.cs:32-38 | An enumeration value names a member exactly when it is 1..4, and that member carries the value. |
| Models.RecurrenceValueRoundTrip | Models/RecurringTaskTemplate.cs:32-38 | Every recurrence member's value reads back as the same member. |
| Models.IsWhiteSpace | Models/RecurringTaskTemplate.cs:11-12 | The characters char.IsWhiteSpace accepts, which the [Required] check of a string ignores. |
| Models.SatisfiesRequired | Models/RecurringTaskTemplate.cs:11-12 | The [Required] annotations: a title with a character that is not white space. StartDate and RecurrenceType are value types and always present. |
| Models.RequiredTitle | Models/RecurringTaskTemplate.cs:11-12 | [Required] on Title accepts a title exactly when trimming white space (string.Trim) off both ends leaves something, so null, empty and white-space-only titles are refused and a title with any other character is accepted. |
| Models.NewTemplate | Models/RecurringTaskTemplate.cs:6-27 | A new template has the declared initialisers: it is active, with interval 1, Medium priority, empty user id and description, and no days, end date, limit, last date or category. Its recurrence value names no member, and it fails the Required title check. |
| Calendar.AddDays | Services/RecurringTaskService.cs:132 | Adding n days yields a valid date whose day number is n larger. |
| Calendar.AddMonths | Services/RecurringTaskService.cs:134 | Adding k months moves the year-and-month index by k and clamps the day to the target month's length. |
| Calendar.AddYears | Services/RecurringTaskService.cs:135 | Adding k years keeps the month and clamps the day, which turns 29 February into 28 February outside leap years. |
| Calendar.AddYearsIsTwelveMonths | Services/RecurringTaskService.cs:134-135 | Adding k years equals adding 12k months. |
| Calendar.AddMonthsLater | Services/RecurringTaskService.cs:134 | Adding at least one month moves strictly forward. |
| Calendar.AddYearsLater | Services/RecurringTaskService.cs:135 | Adding at least one year moves strictly forward. |
| Calendar.DaysBeforeYearClosedForm | Services/RecurringTaskService.cs:66 | The year-by-year day count equals the closed form 365(y-1) plus the leap days before y, which is the form DateTime's tick count uses. |
| Calendar.DayNumberOrder | Services/RecurringTaskService.cs:66 | Comparing day numbers, as `NextDueDate.Date <= today` does, is comparing dates by year, month and day; equal day numbers mean equal dates. |
| Calendar.NextDay | Services/BackgroundService.cs:26 | The next day is a valid date one day number later. |
| Calendar.DayOfWeek | Services/RecurringTaskService.cs:156 | `(int)currentDate.DayOfWeek`: 0 for Sunday through 6 for Saturday, from the day number as .NET counts it. |
| Calendar.DayOfWeekAfter | Services/RecurringTaskService.cs:156 | n days later the weekday has moved by n modulo 7. |
| Calendar.DayOfWeekLaterInWeek | Services/RecurringTaskService.cs:164 | Moving forward by the weekday difference lands on the wanted weekday. |
| Calendar.DayOfWeekWeeksLater | Services/RecurringTaskService.cs:169-170 | The wrap-around step 7w - current + m is at least one day and lands on weekday m. |
| Recurrence.Split | Services/RecurringTaskService.cs:150-151 | Splitting with RemoveEmptyEntries gives non-empty, comma-free pieces, and only digits when the text has only digits and commas. SplitAtComma and SplitWithoutComma fix the result on every text. |
| Recurrence.SplitJoin | Services/RecurringTaskService.cs:150-151 | Splitting recovers every list of non-empty, comma-free pieces that was joined with commas. |
| RecurrenceProperties.SplitAtComma | Services/RecurringTaskService.cs:150-151 | Splitting at a comma splits the text on either side separately, so leading, trailing and doubled commas add no entries. |
| RecurrenceProperties.SplitWithoutComma | Services/RecurringTaskService.cs:150-151 | A text without a comma is a single entry, or no entry when it is empty. |
| RecurrenceProperties.SplitDropsEmptyEntries | Services/RecurringTaskService.cs:150-151 | ",1,,3," splits into "1" and "3". |
| Recurrence.ParseDays | Services/RecurringTaskService.cs:152 | Parsing succeeds exactly when no numeral exceeds int.MaxValue, and otherwise fails with Overflow. On success it returns each numeral's value in order. |
| Recurrence.Insert | Services/RecurringTaskService.cs:153 | Inserting into an ascending list keeps it ascending and adds exactly that element. |
| Recurrence.SortAscending | Services/RecurringTaskService.cs:153 | OrderBy returns an ascending permutation of its input. |
| Recurrence.SortAscendingKeepsSorted | Services/RecurringTaskService.cs:153 | Ordering an ascending list changes nothing. |
| Recurrence.FirstAbove | Services/RecurringTaskService.cs:159 | FirstOrDefault(d > current) returns an element above current when there is one, and 0 otherwise. |
| Recurrence.FirstAboveIsLeast | Services/RecurringTaskService.cs:159 | On an ascending list that element is the least one above current. |
| Recurrence.ParsedDays | Services/RecurringTaskService.cs:150-154 | The day list parses exactly when every numeral fits an int. The result is ascending, non-negative, and a permutation of the parsed numerals. |
| Recurrence.WeeklyOnDays | Services/RecurringTaskService.cs:156-171 | The step over a parsed day list fails, with InvalidOperation, exactly when the list is empty. Otherwise it is strictly later, for an interval whose 7·interval fits in an int. |
| Recurrence.CalculateNextWeeklyDate | Services/RecurringTaskService.cs:143-172 | The weekly calculator, when it succeeds, moves strictly forward, for an interval whose 7·interval fits in an int. |
| Recurrence.CalculateNextDueDate | Services/RecurringTaskService.cs:128-141 | A successful calculation moves strictly forward for a well-formed template, whose 7·interval fits in an int. Only a weekly rule with a DaysOfWeek text can fail. |
| RecurrenceProperties.NextDueDateSteps | Services/RecurringTaskService.cs:130-137 | Daily moves n days and Monthly and Yearly move n months or years with the day clamped. Weekly with no days moves 7n days to the same weekday, with 7n within the int range the template allows. An undefined enumeration value moves one day. None of these can fail. |
| RecurrenceProperties.WeeklyLaterThisWeek | Services/RecurringTaskService.cs:159-165 | When a configured day is later in this week, the rule moves to the least such day, which is that weekday. |
| RecurrenceProperties.WeeklyWrapsToLaterWeek | Services/RecurringTaskService.cs:166-171 | When no configured day is later, the rule moves to the first configured day, interval weeks on, and lands on that weekday; the offset 7·interval − current + first is at least one day and fits in an int. |
| RecurrenceProperties.WeeklyLandsOnConfiguredDay | Services/RecurringTaskService.cs:156-171 | With a non-empty list of weekdays 0..6, the weekly step always lands on a configured weekday, for an interval whose 7·interval fits in an int. |
| RecurrenceProperties.WeeklyUsesParsedDays | Services/RecurringTaskService.cs:145-154 | A non-empty DaysOfWeek text either throws Overflow when parsing fails or steps over the parsed, ascending days. |
| RecurrenceProperties.SplitEmptyIffCommas | Services/RecurringTaskService.cs:150-151 | Splitting gives no entries exactly when the text is only commas. |
| RecurrenceProperties.WeeklyEmptyDayListThrows | Services/RecurringTaskService.cs:145-169 | A non-empty DaysOfWeek text throws InvalidOperation, from First(), exactly when it is only commas. |
| RecurrenceProperties.WeeklyMonWedFri | Services/RecurringTaskService.cs:143-172 | With "1,3,5" and interval 1, Monday goes to Wednesday and Friday goes to the next Monday. |
| RecurrenceProperties.WeeklyOneThreeFive | Services/RecurringTaskService.cs:156-171 | The same two steps hold over the parsed list [1, 3, 5]. |
| RecurrenceProperties.MonWedFriParses | Services/RecurringTaskService.cs:150-154 | "1,3,5" parses to [1, 3, 5]. |
| RecurrenceProperties.CalendarExamples | Services/RecurringTaskService.cs:132-135 | These concrete cases hold: 31 January plus a month is 29 February in 2024 and 28 February in 2023, and 29 February 2024 plus a year is 28 February 2025. |
| Generation.ShouldContinue | Services/RecurringTaskService.cs:104-118 | ShouldContinueGenerating given the count the query returns: false when NextDueDate is after EndDate, else count < MaxOccurrences when there is a limit, else true. |
| Generation.TaskFor | Services/RecurringTaskService.cs:68-78 | The task the loop body initialises for one due date. EmittedTaskFields states its fields. |
| Generation.Generate | Services/RecurringTaskService.cs:66-94 | The generation loop of one template, with the count fixed for the run. It keeps the template well-formed with its definition unchanged, and its due dates are valid. GenerationProperties states what it emits and how it leaves the template. |
| Generation.GeneratedTaskCount | Services/RecurringTaskService.cs:120-126 | The count never exceeds the number of tasks. |
| GenerationProperties.CalculationReadsRule | Services/RecurringTaskService.cs:128-172 | The calculator reads only the rule: type, interval and DaysOfWeek. |
| GenerationProperties.CalculationIgnoresSchedule | Services/RecurringTaskService.cs:128-172 | Templates that differ only in schedule state get the same next date. |
| GenerationProperties.GenerateEmpty | Services/RecurringTaskService.cs:66 | A run emits nothing exactly when the loop condition is false at the start, and then leaves the template unchanged. |
| GenerationProperties.GenerateStartsAtNextDue | Services/RecurringTaskService.cs:66-73 | The first task emitted is due on the template's NextDueDate. |
| GenerationProperties.GenerateDuesChain | Services/RecurringTaskService.cs:83-86 | Each emitted due date is the calculator's successor of the one before it. |
| GenerationProperties.GenerateFailsAtLast | Services/RecurringTaskService.cs:84-86 | A run that throws throws computing the successor of its last emitted date, and it has emitted at least one date. |
| GenerationProperties.GenerateAdvancesPastLast | Services/RecurringTaskService.cs:84-86 | After a run that emitted dates and did not throw, NextDueDate is the successor of the last emitted date. |
| GenerationProperties.GenerateDuesWithin | Services/RecurringTaskService.cs:66-108 | Every emitted date lies between the starting NextDueDate and today, and not after the end date when there is one. |
| GenerationProperties.GenerateDuesIncreasing | Services/RecurringTaskService.cs:66-94 | The emitted dates strictly increase, so no task is emitted twice in a run. |
| GenerationProperties.GenerateLastGenerated | Services/RecurringTaskService.cs:83 | LastGeneratedDate ends as the last emitted date, or unchanged when nothing was emitted. |
| GenerationProperties.GenerateFailureKeepsNextDue | Services/RecurringTaskService.cs:84-86 | When the calculator throws, NextDueDate stays at the last emitted date. |
| GenerationProperties.GenerateDeactivation | Services/RecurringTaskService.cs:88-93 | The template ends inactive exactly when it was deactivated or already inactive. Deactivation follows an emitted task whose successor fails the continuation check. |
| GenerationProperties.GenerateFinishedPastToday | Services/RecurringTaskService.cs:66 | A run that ends at the loop condition leaves NextDueDate after today, unless it emitted nothing because the continuation check failed. |
| GenerationProperties.GenerateLength | Services/RecurringTaskService.cs:66-94 | A run emits at most one task per day from NextDueDate through today, so the loop terminates. |
| GenerationProperties.ShouldContinueMonotone | Services/RecurringTaskService.cs:104-118 | A larger count never turns the continuation check from false to true. |
| GenerationProperties.GenerateIdempotent | Services/RecurringTaskService.cs:61-102 | A second run on the same day, after a run that did not throw and with a count no smaller, emits nothing. |
| GenerationProperties.GenerateFailureRepeats | Services/RecurringTaskService.cs:61-102 | After a run that threw, the next run emits the same last date again and throws the same error. |
| GenerationProperties.GenerateFailureGuard | Services/RecurringTaskService.cs:66 | After a run that threw, the loop condition still holds for the template. |
| GenerationProperties.GenerateMaxCheckedOnce | Services/RecurringTaskService.cs:111-115 | Within one run, a MaxOccurrences limit the count has not reached has no effect, because the count does not change during the run. |
| GenerationProperties.GeneratedCountAppend | Services/RecurringTaskService.cs:120-126 | The count over two lists of tasks is the sum of the counts. |
| GenerationProperties.GeneratedCountOfRun | Services/RecurringTaskService.cs:120-126 | Every task a run creates is counted for its template, provided the run is not earlier than the template's CreatedDate. |
| GenerationProperties.CatchUpCanExceedMax | Services/RecurringTaskService.cs:61-118 | A daily template several days behind emits one task for every missed day in one run, however small its MaxOccurrences. |
| GenerationProperties.DailyEmitsEveryDay | Services/RecurringTaskService.cs:61-102 | An open-ended daily template with interval 1 emits one task for each day from NextDueDate through today. |
| GenerationProperties.NotBeforeIsTickOrder | Services/RecurringTaskService.cs:125 | The count's `>=` on CreatedDate is the order of the total tick count. |
| GenerationProperties.EmittedTaskFields | Services/RecurringTaskService.cs:68-78 | Each emitted task copies the template's user, title, description, priority and category. It is not completed, it is due on its date, and it is created at the run's time. |
| Service.DueOrder | Services/RecurringTaskService.cs:220-222 | A listing of the positions the query selects, the active templates due on or before today, each once and in any order, since the query has no OrderBy. |
| Service.DueTemplates | Services/RecurringTaskService.cs:220-222 | The selected positions in ascending store order, which is one listing the query may return: exactly the active templates whose NextDueDate is not after today. |
| Service.ProcessTemplate | Services/RecurringTaskService.cs:61-102 | One template's call on the store: the template advances as Generate says, its tasks are added, and the context is saved when a task was generated and nothing threw. It keeps the store well-formed. ServiceProperties states the rest. |
| Service.Batch | Services/RecurringTaskService.cs:226-236 | The foreach over a listing of positions, catching each template's failure. It keeps the store well-formed and its number of templates. |
| Service.GenerateAll | Services/RecurringTaskService.cs:216-237 | The whole batch for the order in which the query returns the due templates. It keeps the store well-formed and its number of templates. |
| Service.Toggled | Services/RecurringTaskService.cs:203-214 | The store after a toggle: IsActive of the first template with this id and user is flipped and saved, or, with no such template, the store as it was. |
| Service.Prepared | Services/RecurringTaskService.cs:29-45 | The template as creation stores it: the new id, CreatedDate = now and NextDueDate = StartDate. |
| Service.FindTemplate | Services/RecurringTaskService.cs:183-188 | The lookup returns the first template with this id and user, and None exactly when there is none. |
| Service.RecurringTaskService.constructor | Services/RecurringTaskService.cs:23-27 | The service starts over the given store. |
| Service.RecurringTaskService.OpenScope | Services/BackgroundService.cs:61-62 | A new scope's context has nothing added yet and shares the stored templates and tasks. |
| Service.RecurringTaskService.SaveChanges | Services/RecurringTaskService.cs:41 | Saving appends the added tasks to the saved ones and leaves nothing pending. |
| Service.RecurringTaskService.CreateTemplate | Services/RecurringTaskService.cs:29-45 | The template is stored with its new id, CreatedDate = now and NextDueDate = StartDate, and is saved. |
| Service.RecurringTaskService.ToggleTemplateStatus | Services/RecurringTaskService.cs:203-214 | The new state is `Toggled`: IsActive of the matching template is flipped and saved, and with no match nothing changes. |
| Service.RecurringTaskService.GenerateTasksForTemplate | Services/RecurringTaskService.cs:61-102 | The new state is `ProcessTemplate`: the template advances as `Generate` says and its tasks are added. Saving happens when at least one task was generated and nothing threw. The calculator's exception is returned. |
| Service.RecurringTaskService.GenerateOccurrences | Services/RecurringTaskService.cs:63-94 | The loop adds exactly the tasks of `Generate`'s due dates, in order. It leaves the template where `Generate` does, counts the tasks, and reports the error exactly when the calculator threw. |
| Service.RecurringTaskService.GenerateTasksForAllActiveTemplates | Services/RecurringTaskService.cs:216-237 | The new state is `GenerateAll` for the order the query returns, whatever that order is. Every due template is processed in that order, and a failure is caught and does not stop the rest. |
| Service.BatchSnoc | Services/RecurringTaskService.cs:226-236 | Processing one more selected template extends the batch by that template's step. |
| Service.CountReadsKey | Services/RecurringTaskService.cs:122-125 | The count depends only on the template's user, title and CreatedDate, so the schedule changes of the loop do not alter it. |
| Service.Advance | Services/RecurringTaskService.cs:66-94 | One iteration of the loop is one step of `Generate`, whichever of the three ways the iteration ends. |
| Service.Finish | Services/RecurringTaskService.cs:66-94 | When the remaining run is empty, what the loop has emitted is the whole run. |
| ServiceProperties.ProcessTemplateLeavesOthers | Services/RecurringTaskService.cs:61-102 | Processing one template changes no other template. |
| ServiceProperties.ProcessTemplateSaves | Services/RecurringTaskService.cs:96-101 | No task is lost or invented. Nothing stays pending exactly when the run saved, or when nothing was pending and nothing was added. |
| ServiceProperties.ProcessTemplateKeepsSaved | Services/RecurringTaskService.cs:96-98 | Saved tasks are only appended to. |
| ServiceProperties.ProcessTemplateCount | Services/RecurringTaskService.cs:96-98 | After a run that saved, the template's count grows by the pending tasks it counts plus one per emitted date. |
| ServiceProperties.ProcessTemplateSameDay | Services/RecurringTaskService.cs:61-102 | Processing the same template again on the same day, after a run that did not throw, emits nothing. |
| ServiceProperties.FailedTasksSavedByNextSave | Services/RecurringTaskService.cs:226-236 | The tasks of a template whose calculation threw are saved by the next template that saves in the same context. |
| ServiceProperties.BatchLeavesOthers | Services/RecurringTaskService.cs:226-236 | A template the batch does not select keeps its state. |
| ServiceProperties.BatchKeepsSaved | Services/RecurringTaskService.cs:226-236 | The batch only appends to the saved tasks. |
| ServiceProperties.BatchRunsEach | Services/RecurringTaskService.cs:226-236 | In any listing without repeats, each template is processed once, from the state it had before the batch. Its final state is that run's result. |
| ServiceProperties.GenerateAllRunsDue | Services/RecurringTaskService.cs:216-237 | Whatever order the query returns, a template that is not due is untouched and a due template ends as its own run from its original state. |
| ServiceProperties.ToggleTwice | Services/RecurringTaskService.cs:203-214 | Toggling twice restores the templates. |
| ServiceProperties.ToggleFlipsOnlyMatch | Services/RecurringTaskService.cs:203-214 | Toggling flips only IsActive of the first matching template, and with no match it changes nothing. |
| ServiceProperties.CreatedStartsAtStartDate | Services/RecurringTaskService.cs:29-45 | A created template keeps its definition. Its first emitted occurrence is its StartDate. |
| Background.NextRun | Services/BackgroundService.cs:22-27 | The first run is at 02:00, today when it is 02:00 or earlier and tomorrow otherwise, and less than a day from now. |
| Background.InitialDelay | Services/BackgroundService.cs:29 | The delay is never negative and shorter than the 24-hour period. It is zero exactly at 02:00. |
| Background.NextRunIsEarliest | Services/BackgroundService.cs:22-27 | No 02:00 that is not earlier than now comes before the first run. |
| Background.RunOnce | Services/BackgroundService.cs:43-67 | A run in a new scope keeps the store well-formed and its number of templates. |
| Background.RunTicks | Services/BackgroundService.cs:43-54 | Running the ticks in order keeps the store well-formed and its number of templates. |
| Background.ExecuteAsync | Services/BackgroundService.cs:17-55 | The delay is the initial delay. Cancellation before the first run changes nothing. Otherwise each tick runs once, in order, and a run that throws is caught. |
| Background.RunTicksKeepSaved | Services/BackgroundService.cs:43-54 | Saved tasks survive every run. |
| Background.RunTicksSkipsFailure | Services/BackgroundService.cs:45-52 | A run that throws leaves templates and saved tasks as they were. Later runs go on from there. |
| Background.NextRunDiscardsPending | Services/BackgroundService.cs:61-64 | Tasks left unsaved by one run are not saved by the next, which uses a new scope. |

## Left out

- Dates after year 9999 are not modelled. DateTime's range checks would make AddDays, AddMonths and AddYears throw ArgumentOutOfRange on a step past that year.
- Models.WellFormed bounds RecurrenceInterval so that `7 * RecurrenceInterval` fits in a 32-bit int. The source computes that product unchecked, at Services/RecurringTaskService.cs:147 and :169, and it wraps for larger intervals. With interval 613566756 it wraps to −4, so the weekly step moves four days back and the generation loop runs on. Larger intervals of the other kinds would step past year 9999, which the line above leaves out.
- CalculateNextDueDate: strictly later is promised only for intervals whose 7·interval fits in an int. The wrapped weekly step is not modelled.
- CalculateNextWeeklyDate: as for CalculateNextDueDate, the unchecked `7 * interval` that wraps is not modelled.
- WeeklyOnDays: as for CalculateNextDueDate, the unchecked `7 * interval - d + first` is modelled only where it does not wrap.
- NextDueDateSteps: the weekly case is stated only where 7n fits in an int. A wrapped product moves int32(7n) days in the source.
- WeeklyWrapsToLaterWeek: stated only where 7·interval fits in an int. For larger intervals the source's offset wraps.
- WeeklyLandsOnConfiguredDay: stated only where 7·interval fits in an int. A wrapped offset can land on another weekday.
- Time of day on template dates is not modelled. StartDate, EndDate, NextDueDate and LastGeneratedDate are dates, because the engine compares them by `.Date`. DueDate of an emitted task carries NextDueDate's time in the source.
- DateTimeKind, DateTime.Now against DateTime.UtcNow, and daylight saving time are not modelled. Every time stamp is one clock.
- The clock is a parameter. `now` is one instant for a whole call, while the source reads DateTime.UtcNow afresh for each task's CreatedDate.
- int.Parse accepting leading whitespace and a sign is not modelled. A DaysOfWeek text is assumed to hold only digits and commas, and any other text is outside the model. Values above int.MaxValue do raise Overflow.
- Models.WellFormed also requires RecurrenceInterval >= 1. With 0 or a negative interval the source loop need not terminate, or moves backwards.
- Weekdays outside 0..6 in DaysOfWeek are accepted as the source accepts them. The weekday lemmas assume 0..6.
- The Priority enumeration's declaration is not part of this model. Its members Low, Medium and High are assumed.
- A null Title is modelled as "". Description, nullable on the template and non-null on TaskItem, is an Option on both.
- Database-generated ids are a parameter of CreateTemplate. The category navigation property (`Include(r => r.Category)`) is not modelled.
- The template objects the batch changes are modelled as the stored templates, updated in place. The difference between EF's tracked entities and the persisted rows is not modelled. In particular, a template whose calculation threw keeps its in-memory changes in the model.
- Service.RecurringTaskService.GenerateTasksForTemplate: the source's exception propagates to the caller. The model returns it as an error value and has the caller ignore it, as the catch does.
- Service.DueTemplates: each background run processes the due templates in ascending store order. The query has no OrderBy, so the database may return them in another order. The order matters in two cases. A later template with the same user and title counts the tasks an earlier one has just saved. And it decides which template's save writes the tasks a failed template left pending. The service's batch and its lemmas hold for every order; the background runs fix this one.
- Database failures other than the calculator's exceptions are modelled only as a background run that throws before it changes anything (`Tick.fails`).
- Background.ExecuteAsync: the timer, the cancellation token and the waiting are not modelled. The ticks are a parameter, and a cancellation after the first run ends them, like the OperationCanceledException out of WaitForNextTickAsync.
- Logging is left out throughout.
- UpdateTemplateAsync, DeleteTemplateAsync and GetUserTemplatesAsync are not part of the generation engine and are not modelled.
- The dependency-injection container is modelled only as the new scope: `OpenScope` gives the next run a context with nothing pending.
