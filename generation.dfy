/** The occurrence generator of the recurring-task service as a pure
    specification: the continuation predicate, the occurrence count the
    database reports, the tasks the loop emits, and `Generate`, which runs
    the generation loop of one template to its end. */
module Generation {
  import opened Wrappers
  import opened Calendar
  import opened Models
  import opened Recurrence

  /** `ShouldContinueGenerating`, given the count the database query returns. */
  predicate ShouldContinue(t: RecurringTaskTemplate, count: int)
    requires WellFormed(t)
  {
    if t.endDate.Some? && DayNumber(t.nextDueDate) > DayNumber(t.endDate.value) then false
    else if t.maxOccurrences.Some? then count < t.maxOccurrences.value
    else true
  }

  /** `a >= b` on time stamps: DateTime compares its tick count, which orders
      time stamps by date first and time of day second. */
  predicate NotBefore(a: DateTime, b: DateTime) {
    if a.date.year != b.date.year then a.date.year > b.date.year
    else if a.date.month != b.date.month then a.date.month > b.date.month
    else if a.date.day != b.date.day then a.date.day > b.date.day
    else a.ticks >= b.ticks
  }

  /** The filter of `GetGeneratedTaskCount`: same user, same title, created
      at or after the template. */
  predicate CountedFor(task: TaskItem, t: RecurringTaskTemplate) {
    task.userId == t.userId && task.title == t.title && NotBefore(task.createdDate, t.createdDate)
  }

  /** `GetGeneratedTaskCount`: how many saved tasks pass the filter. */
  function GeneratedTaskCount(tasks: seq<TaskItem>, t: RecurringTaskTemplate): (n: nat)
    ensures n <= |tasks|
  {
    if tasks == [] then 0
    else GeneratedTaskCount(tasks[..|tasks| - 1], t) + if CountedFor(tasks[|tasks| - 1], t) then 1 else 0
  }

  /** The task the loop body creates for the due date `due` at time `now`. */
  function TaskFor(t: RecurringTaskTemplate, due: Date, now: DateTime): TaskItem {
    TaskItem(t.userId, t.title, t.description, Some(due), t.priority, t.categoryId, false, now)
  }

  function TasksFor(t: RecurringTaskTemplate, dues: seq<Date>, now: DateTime): seq<TaskItem> {
    seq(|dues|, k requires 0 <= k < |dues| => TaskFor(t, dues[k], now))
  }

  /** How a generation run ended: the loop condition failed, the template was
      deactivated and the loop broken, or CalculateNextDueDate threw. */
  datatype Outcome = Finished | Deactivated | Failed(error: Error)

  /** The due dates emitted, in order, the template as the run leaves it, and
      how the run ended. */
  datatype Run = Run(dues: seq<Date>, template: RecurringTaskTemplate, outcome: Outcome)

  predicate AllValid(dues: seq<Date>) {
    forall k :: 0 <= k < |dues| ==> ValidDate(dues[k])
  }

  /** Every date of ds has a day number in lo .. hi. */
  predicate Between(ds: seq<Date>, lo: int, hi: int)
    requires AllValid(ds)
  {
    forall k :: 0 <= k < |ds| ==> lo <= DayNumber(ds[k]) <= hi
  }

  predicate StrictlyIncreasing(ds: seq<Date>)
    requires AllValid(ds)
  {
    forall j, k :: 0 <= j < k < |ds| ==> DayNumber(ds[j]) < DayNumber(ds[k])
  }

  /** The loop condition of the generator. */
  predicate LoopGuard(t: RecurringTaskTemplate, today: Date, count: int)
    requires WellFormed(t) && ValidDate(today)
  {
    DayNumber(t.nextDueDate) <= DayNumber(today) && ShouldContinue(t, count)
  }

  /** Days from `next` through `today`: a bound on the iterations left. */
  function Remaining(next: Date, today: Date): nat
    requires ValidDate(next) && ValidDate(today)
  {
    if DayNumber(next) <= DayNumber(today) then DayNumber(today) - DayNumber(next) + 1 else 0
  }

  /** The generation loop of one template, with the occurrence count fixed
      for the whole run (the tasks it adds are not saved until it ends). */
  function Generate(t: RecurringTaskTemplate, today: Date, count: int): (r: Run)
    requires WellFormed(t) && ValidDate(today)
    ensures WellFormed(r.template) && SameDefinition(r.template, t)
    ensures AllValid(r.dues)
    decreases Remaining(t.nextDueDate, today)
  {
    if !LoopGuard(t, today, count) then Run([], t, Finished)
    else
      var due := t.nextDueDate;
      var t1 := t.(lastGeneratedDate := Some(due));
      match CalculateNextDueDate(due, t1)
      case Failure(e) => Run([due], t1, Failed(e))
      case Success(next) =>
        var t2 := t1.(nextDueDate := next);
        if !ShouldContinue(t2, count) then Run([due], t2.(isActive := false), Deactivated)
        else
          var rest := Generate(t2, today, count);
          Run([due] + rest.dues, rest.template, rest.outcome)
  }
}

module GenerationProperties {
  import opened Wrappers
  import opened Calendar
  import opened Models
  import opened Recurrence
  import opened Generation

  /** The calculator reads RecurrenceType, RecurrenceInterval and DaysOfWeek
      and nothing else of the template. */
  lemma CalculationReadsRule(d: Date, a: RecurringTaskTemplate, b: RecurringTaskTemplate)
    requires ValidDate(d) && WellFormed(a) && WellFormed(b)
    requires a.recurrenceType == b.recurrenceType && a.recurrenceInterval == b.recurrenceInterval
    requires a.daysOfWeek == b.daysOfWeek
    ensures CalculateNextDueDate(d, a) == CalculateNextDueDate(d, b)
  {
  }

  /** In particular it never reads the schedule state. */
  lemma CalculationIgnoresSchedule(d: Date, a: RecurringTaskTemplate, b: RecurringTaskTemplate)
    requires ValidDate(d) && WellFormed(a) && WellFormed(b) && SameDefinition(a, b)
    ensures CalculateNextDueDate(d, a) == CalculateNextDueDate(d, b)
  {
    CalculationReadsRule(d, a, b);
  }

  /** Nothing is emitted exactly when the loop condition fails on entry, and
      then the template is left as it was (in particular IsActive). */
  lemma GenerateEmpty(t: RecurringTaskTemplate, today: Date, count: int)
    requires WellFormed(t) && ValidDate(today)
    ensures Generate(t, today, count).dues == [] <==> !LoopGuard(t, today, count)
    ensures Generate(t, today, count).dues == [] ==> Generate(t, today, count) == Run([], t, Finished)
  {
  }

  /** The first emitted date is the template's NextDueDate. */
  lemma GenerateStartsAtNextDue(t: RecurringTaskTemplate, today: Date, count: int)
    requires WellFormed(t) && ValidDate(today)
    ensures var r := Generate(t, today, count);
      r.dues != [] ==> r.dues[0] == t.nextDueDate
  {
  }

  /** Each emitted date after the first is the calculator's result for the
      one before it. */
  lemma {:induction false} GenerateDuesChain(t: RecurringTaskTemplate, today: Date, count: int)
    requires WellFormed(t) && ValidDate(today)
    ensures var r := Generate(t, today, count);
      forall k :: 0 <= k < |r.dues| - 1 ==> CalculateNextDueDate(r.dues[k], t) == Success(r.dues[k + 1])
    decreases Remaining(t.nextDueDate, today)
  {
    var r := Generate(t, today, count);
    if LoopGuard(t, today, count) {
      var due := t.nextDueDate;
      var t1 := t.(lastGeneratedDate := Some(due));
      var c := CalculateNextDueDate(due, t1);
      if c.Success? {
        var t2 := t1.(nextDueDate := c.value);
        if ShouldContinue(t2, count) {
          var rest := Generate(t2, today, count);
          GenerateDuesChain(t2, today, count);
          GenerateStartsAtNextDue(t2, today, count);
          assert r.dues == [due] + rest.dues;
          forall k | 0 <= k < |r.dues| - 1
            ensures CalculateNextDueDate(r.dues[k], t) == Success(r.dues[k + 1])
          {
            if k > 0 {
              CalculationIgnoresSchedule(r.dues[k], t2, t);
            } else {
              CalculationIgnoresSchedule(due, t1, t);
            }
          }
        }
      }
    }
  }

  /** A failed run ends where the calculator threw on the last emitted date. */
  lemma {:induction false} GenerateFailsAtLast(t: RecurringTaskTemplate, today: Date, count: int)
    requires WellFormed(t) && ValidDate(today)
    ensures var r := Generate(t, today, count);
      r.outcome.Failed? ==> r.dues != [] && CalculateNextDueDate(r.dues[|r.dues| - 1], t) == Failure(r.outcome.error)
    decreases Remaining(t.nextDueDate, today)
  {
    if LoopGuard(t, today, count) {
      var due := t.nextDueDate;
      var t1 := t.(lastGeneratedDate := Some(due));
      CalculationIgnoresSchedule(due, t1, t);
      var c := CalculateNextDueDate(due, t1);
      if c.Success? {
        var t2 := t1.(nextDueDate := c.value);
        if ShouldContinue(t2, count) {
          var r, rest := Generate(t, today, count), Generate(t2, today, count);
          assert r.dues == [due] + rest.dues && r.outcome == rest.outcome;
          if rest.outcome.Failed? {
            GenerateFailsAtLast(t2, today, count);
            assert r.dues[|r.dues| - 1] == rest.dues[|rest.dues| - 1];
            CalculationIgnoresSchedule(rest.dues[|rest.dues| - 1], t2, t);
          }
        }
      }
    }
  }

  /** A run that did not fail leaves as NextDueDate the calculator's result
      for the last emitted date. */
  lemma {:induction false} GenerateAdvancesPastLast(t: RecurringTaskTemplate, today: Date, count: int)
    requires WellFormed(t) && ValidDate(today)
    ensures var r := Generate(t, today, count);
      r.dues != [] && !r.outcome.Failed? ==> CalculateNextDueDate(r.dues[|r.dues| - 1], t) == Success(r.template.nextDueDate)
    decreases Remaining(t.nextDueDate, today)
  {
    if LoopGuard(t, today, count) {
      var due := t.nextDueDate;
      var t1 := t.(lastGeneratedDate := Some(due));
      CalculationIgnoresSchedule(due, t1, t);
      var c := CalculateNextDueDate(due, t1);
      if c.Success? {
        var t2 := t1.(nextDueDate := c.value);
        if ShouldContinue(t2, count) {
          var r, rest := Generate(t, today, count), Generate(t2, today, count);
          assert r.dues == [due] + rest.dues && r.template == rest.template && r.outcome == rest.outcome;
          if rest.dues != [] {
            GenerateAdvancesPastLast(t2, today, count);
            assert r.dues[|r.dues| - 1] == rest.dues[|rest.dues| - 1];
            CalculationIgnoresSchedule(rest.dues[|rest.dues| - 1], t2, t);
          } else {
            GenerateEmpty(t2, today, count);
          }
        }
      }
    }
  }

  lemma BetweenCons(due: Date, rest: seq<Date>, lo: int, mid: int, hi: int)
    requires ValidDate(due) && AllValid(rest) && Between(rest, mid, hi)
    requires lo <= DayNumber(due) <= hi && lo <= mid
    ensures AllValid([due] + rest) && Between([due] + rest, lo, hi)
  {
    var ds := [due] + rest;
    assert forall k :: 0 < k < |ds| ==> ds[k] == rest[k - 1];
  }

  lemma IncreasingCons(due: Date, rest: seq<Date>, hi: int)
    requires ValidDate(due) && AllValid(rest) && StrictlyIncreasing(rest)
    requires Between(rest, DayNumber(due) + 1, hi)
    ensures AllValid([due] + rest) && StrictlyIncreasing([due] + rest)
  {
    var ds := [due] + rest;
    forall j, k | 0 <= j < k < |ds| ensures DayNumber(ds[j]) < DayNumber(ds[k]) {
      assert ds[k] == rest[k - 1];
      if j > 0 {
        assert ds[j] == rest[j - 1];
      }
    }
  }

  /** No emitted date lies before the template's NextDueDate or after
      `today`, nor after EndDate when it is set. */
  lemma {:induction false} GenerateDuesWithin(t: RecurringTaskTemplate, today: Date, count: int)
    requires WellFormed(t) && ValidDate(today)
    ensures Between(Generate(t, today, count).dues, DayNumber(t.nextDueDate), DayNumber(today))
    ensures t.endDate.Some? ==>
      Between(Generate(t, today, count).dues, DayNumber(t.nextDueDate), DayNumber(t.endDate.value))
    decreases Remaining(t.nextDueDate, today)
  {
    var ds := Generate(t, today, count).dues;
    if LoopGuard(t, today, count) {
      var due := t.nextDueDate;
      var t1 := t.(lastGeneratedDate := Some(due));
      var c := CalculateNextDueDate(due, t1);
      if c.Success? && ShouldContinue(t1.(nextDueDate := c.value), count) {
        var t2 := t1.(nextDueDate := c.value);
        var rest := Generate(t2, today, count).dues;
        GenerateDuesWithin(t2, today, count);
        assert ds == [due] + rest;
        var lo, mid := DayNumber(due), DayNumber(t2.nextDueDate);
        BetweenCons(due, rest, lo, mid, DayNumber(today));
        if t.endDate.Some? {
          BetweenCons(due, rest, lo, mid, DayNumber(t.endDate.value));
        }
      } else {
        assert ds == [due];
      }
    }
  }

  /** Emitted dates are strictly increasing. */
  lemma {:induction false} GenerateDuesIncreasing(t: RecurringTaskTemplate, today: Date, count: int)
    requires WellFormed(t) && ValidDate(today)
    ensures StrictlyIncreasing(Generate(t, today, count).dues)
    decreases Remaining(t.nextDueDate, today)
  {
    var ds := Generate(t, today, count).dues;
    if LoopGuard(t, today, count) {
      var due := t.nextDueDate;
      var t1 := t.(lastGeneratedDate := Some(due));
      var c := CalculateNextDueDate(due, t1);
      if c.Success? && ShouldContinue(t1.(nextDueDate := c.value), count) {
        var t2 := t1.(nextDueDate := c.value);
        var rest := Generate(t2, today, count).dues;
        GenerateDuesIncreasing(t2, today, count);
        GenerateDuesWithin(t2, today, count);
        assert ds == [due] + rest;
        IncreasingCons(due, rest, DayNumber(today));
      } else {
        assert ds == [due];
      }
    }
  }

  /** LastGeneratedDate ends as the last emitted date, and is untouched
      when nothing is emitted. */
  lemma {:induction false} GenerateLastGenerated(t: RecurringTaskTemplate, today: Date, count: int)
    requires WellFormed(t) && ValidDate(today)
    ensures var r := Generate(t, today, count);
      r.template.lastGeneratedDate == if r.dues == [] then t.lastGeneratedDate else Some(r.dues[|r.dues| - 1])
    decreases Remaining(t.nextDueDate, today)
  {
    if LoopGuard(t, today, count) {
      var due := t.nextDueDate;
      var t1 := t.(lastGeneratedDate := Some(due));
      var c := CalculateNextDueDate(due, t1);
      if c.Success? && ShouldContinue(t1.(nextDueDate := c.value), count) {
        var t2 := t1.(nextDueDate := c.value);
        var r, rest := Generate(t, today, count), Generate(t2, today, count);
        GenerateLastGenerated(t2, today, count);
        assert r.dues == [due] + rest.dues && r.template == rest.template;
        if rest.dues != [] {
          assert r.dues[|r.dues| - 1] == rest.dues[|rest.dues| - 1];
        }
      }
    }
  }

  /** A run that threw leaves NextDueDate at the last emitted date: it is
      not advanced past it. */
  lemma {:induction false} GenerateFailureKeepsNextDue(t: RecurringTaskTemplate, today: Date, count: int)
    requires WellFormed(t) && ValidDate(today)
    ensures var r := Generate(t, today, count);
      r.outcome.Failed? ==> r.dues != [] && r.template.nextDueDate == r.dues[|r.dues| - 1]
    decreases Remaining(t.nextDueDate, today)
  {
    if LoopGuard(t, today, count) {
      var due := t.nextDueDate;
      var t1 := t.(lastGeneratedDate := Some(due));
      var c := CalculateNextDueDate(due, t1);
      if c.Success? && ShouldContinue(t1.(nextDueDate := c.value), count) {
        var t2 := t1.(nextDueDate := c.value);
        var r, rest := Generate(t, today, count), Generate(t2, today, count);
        GenerateFailureKeepsNextDue(t2, today, count);
        assert r.dues == [due] + rest.dues && r.template == rest.template;
        if rest.dues != [] {
          assert r.dues[|r.dues| - 1] == rest.dues[|rest.dues| - 1];
        }
      }
    }
  }

  /** IsActive is cleared only by a deactivating run, and such a run emitted
      at least one date and left a template whose advanced NextDueDate fails
      the continuation predicate. */
  lemma {:induction false} GenerateDeactivation(t: RecurringTaskTemplate, today: Date, count: int)
    requires WellFormed(t) && ValidDate(today)
    ensures var r := Generate(t, today, count);
      r.template.isActive == (t.isActive && !r.outcome.Deactivated?)
    ensures var r := Generate(t, today, count);
      r.outcome.Deactivated? ==> r.dues != [] && !ShouldContinue(r.template, count)
    decreases Remaining(t.nextDueDate, today)
  {
    if LoopGuard(t, today, count) {
      var due := t.nextDueDate;
      var t1 := t.(lastGeneratedDate := Some(due));
      var c := CalculateNextDueDate(due, t1);
      if c.Success? {
        var t2 := t1.(nextDueDate := c.value);
        if ShouldContinue(t2, count) {
          GenerateDeactivation(t2, today, count);
        } else {
          assert ShouldContinue(t2.(isActive := false), count) == ShouldContinue(t2, count);
        }
      }
    }
  }

  /** A run that ends normally leaves NextDueDate after `today`, unless the
      continuation predicate already failed on entry and nothing was emitted. */
  lemma {:induction false} GenerateFinishedPastToday(t: RecurringTaskTemplate, today: Date, count: int)
    requires WellFormed(t) && ValidDate(today)
    ensures var r := Generate(t, today, count);
      r.outcome.Finished? ==>
        DayNumber(r.template.nextDueDate) > DayNumber(today) || (r.dues == [] && !ShouldContinue(t, count))
    decreases Remaining(t.nextDueDate, today)
  {
    if LoopGuard(t, today, count) {
      var due := t.nextDueDate;
      var t1 := t.(lastGeneratedDate := Some(due));
      var c := CalculateNextDueDate(due, t1);
      if c.Success? {
        var t2 := t1.(nextDueDate := c.value);
        if ShouldContinue(t2, count) {
          GenerateFinishedPastToday(t2, today, count);
          GenerateEmpty(t2, today, count);
        }
      }
    }
  }

  /** The loop runs at most once per day from NextDueDate through `today`. */
  lemma {:induction false} GenerateLength(t: RecurringTaskTemplate, today: Date, count: int)
    requires WellFormed(t) && ValidDate(today)
    ensures |Generate(t, today, count).dues| <= Remaining(t.nextDueDate, today)
    decreases Remaining(t.nextDueDate, today)
  {
    if LoopGuard(t, today, count) {
      var due := t.nextDueDate;
      var t1 := t.(lastGeneratedDate := Some(due));
      var c := CalculateNextDueDate(due, t1);
      if c.Success? {
        var t2 := t1.(nextDueDate := c.value);
        if ShouldContinue(t2, count) {
          GenerateLength(t2, today, count);
        }
      }
    }
  }

  /** A larger occurrence count never turns the continuation predicate on. */
  lemma ShouldContinueMonotone(t: RecurringTaskTemplate, c1: int, c2: int)
    requires WellFormed(t) && c1 <= c2
    ensures ShouldContinue(t, c2) ==> ShouldContinue(t, c1)
  {
  }

  /** Running the generator again on what a run that did not throw left
      behind emits nothing, even if the count has grown meanwhile. */
  lemma GenerateIdempotent(t: RecurringTaskTemplate, today: Date, c1: int, c2: int)
    requires WellFormed(t) && ValidDate(today) && c1 <= c2
    requires !Generate(t, today, c1).outcome.Failed?
    ensures Generate(Generate(t, today, c1).template, today, c2).dues == []
  {
    var r := Generate(t, today, c1);
    GenerateDeactivation(t, today, c1);
    GenerateFinishedPastToday(t, today, c1);
    GenerateEmpty(t, today, c1);
    ShouldContinueMonotone(r.template, c1, c2);
    GenerateEmpty(r.template, today, c2);
  }

  /** A run that threw leaves the template so that the next run, with the
      count unchanged, emits the same last date again and throws again. */
  lemma GenerateFailureRepeats(t: RecurringTaskTemplate, today: Date, count: int)
    requires WellFormed(t) && ValidDate(today)
    requires Generate(t, today, count).outcome.Failed?
    ensures var r := Generate(t, today, count);
      Generate(r.template, today, count) == Run([r.dues[|r.dues| - 1]], r.template, r.outcome)
  {
    var r := Generate(t, today, count);
    GenerateFailureKeepsNextDue(t, today, count);
    GenerateFailsAtLast(t, today, count);
    GenerateLastGenerated(t, today, count);
    GenerateDuesWithin(t, today, count);
    GenerateFailureGuard(t, today, count);
    var due := r.dues[|r.dues| - 1];
    var u := r.template;
    assert u.(lastGeneratedDate := Some(due)) == u;
    CalculationIgnoresSchedule(due, u, t);
  }

  /** The loop condition held when the failing iteration began: a run that
      threw did so with NextDueDate due and the predicate true. */
  lemma {:induction false} GenerateFailureGuard(t: RecurringTaskTemplate, today: Date, count: int)
    requires WellFormed(t) && ValidDate(today)
    ensures var r := Generate(t, today, count);
      r.outcome.Failed? ==> LoopGuard(r.template, today, count)
    decreases Remaining(t.nextDueDate, today)
  {
    if LoopGuard(t, today, count) {
      var due := t.nextDueDate;
      var t1 := t.(lastGeneratedDate := Some(due));
      var c := CalculateNextDueDate(due, t1);
      if c.Success? && ShouldContinue(t1.(nextDueDate := c.value), count) {
        GenerateFailureGuard(t1.(nextDueDate := c.value), today, count);
      }
    }
  }

  /** Once the count is below MaxOccurrences on entry, the run goes exactly
      as if there were no limit at all: the count the predicate sees does not
      grow during a run, so a catch-up run is not cut at the limit. */
  lemma {:induction false} GenerateMaxCheckedOnce(t: RecurringTaskTemplate, today: Date, count: int)
    requires WellFormed(t) && ValidDate(today)
    requires t.maxOccurrences.Some? && count < t.maxOccurrences.value
    ensures var r, u := Generate(t, today, count), Generate(t.(maxOccurrences := None), today, count);
      r.dues == u.dues && r.outcome == u.outcome &&
      r.template == u.template.(maxOccurrences := t.maxOccurrences)
    decreases Remaining(t.nextDueDate, today)
  {
    var n := t.(maxOccurrences := None);
    assert LoopGuard(t, today, count) == LoopGuard(n, today, count);
    if LoopGuard(t, today, count) {
      var due := t.nextDueDate;
      var t1, n1 := t.(lastGeneratedDate := Some(due)), n.(lastGeneratedDate := Some(due));
      CalculationReadsRule(due, t1, n1);
      var c := CalculateNextDueDate(due, t1);
      if c.Success? {
        var t2, n2 := t1.(nextDueDate := c.value), n1.(nextDueDate := c.value);
        assert n2 == t2.(maxOccurrences := None);
        assert ShouldContinue(t2, count) == ShouldContinue(n2, count);
        if ShouldContinue(t2, count) {
          GenerateMaxCheckedOnce(t2, today, count);
        }
      }
    }
  }

  /** Counting is additive over concatenation. */
  lemma {:induction false} GeneratedCountAppend(tasks: seq<TaskItem>, more: seq<TaskItem>, t: RecurringTaskTemplate)
    ensures GeneratedTaskCount(tasks + more, t) == GeneratedTaskCount(tasks, t) + GeneratedTaskCount(more, t)
    decreases |more|
  {
    if more != [] {
      var all := tasks + more;
      assert all[..|all| - 1] == tasks + more[..|more| - 1];
      assert all[|all| - 1] == more[|more| - 1];
      GeneratedCountAppend(tasks, more[..|more| - 1], t);
    } else {
      assert tasks + more == tasks;
    }
  }

  /** Every task a run emits at a time not before the template's CreatedDate
      is one the occurrence count covers, so once saved they add exactly the
      number of emitted dates to the count. */
  lemma {:induction false} GeneratedCountOfRun(t: RecurringTaskTemplate, dues: seq<Date>, now: DateTime)
    requires NotBefore(now, t.createdDate)
    ensures GeneratedTaskCount(TasksFor(t, dues, now), t) == |dues|
    decreases |dues|
  {
    if dues != [] {
      var ts := TasksFor(t, dues, now);
      assert ts[..|ts| - 1] == TasksFor(t, dues[..|dues| - 1], now);
      GeneratedCountOfRun(t, dues[..|dues| - 1], now);
    }
  }

  /** A daily template with interval 1 and no EndDate whose count is below
      MaxOccurrences on entry emits one task for every day from NextDueDate
      through `today`, however few occurrences MaxOccurrences allows: a
      catch-up run can exceed the limit. */
  lemma CatchUpCanExceedMax(t: RecurringTaskTemplate, today: Date, count: int)
    requires WellFormed(t) && ValidDate(today)
    requires t.recurrenceType == RecurrenceValue(Daily) && t.recurrenceInterval == 1 && t.endDate.None?
    requires t.maxOccurrences.Some? && count < t.maxOccurrences.value
    ensures |Generate(t, today, count).dues| == Remaining(t.nextDueDate, today)
  {
    GenerateMaxCheckedOnce(t, today, count);
    DailyEmitsEveryDay(t.(maxOccurrences := None), today, count);
  }

  /** Without EndDate and MaxOccurrences, a daily template with interval 1
      emits every day from NextDueDate through `today`. */
  lemma {:induction false} DailyEmitsEveryDay(t: RecurringTaskTemplate, today: Date, count: int)
    requires WellFormed(t) && ValidDate(today)
    requires t.recurrenceType == RecurrenceValue(Daily) && t.recurrenceInterval == 1
    requires t.endDate.None? && t.maxOccurrences.None?
    ensures |Generate(t, today, count).dues| == Remaining(t.nextDueDate, today)
    decreases Remaining(t.nextDueDate, today)
  {
    if LoopGuard(t, today, count) {
      var due := t.nextDueDate;
      var t1 := t.(lastGeneratedDate := Some(due));
      var next := AddDays(due, 1);
      assert CalculateNextDueDate(due, t1) == Success(next);
      var t2 := t1.(nextDueDate := next);
      DailyEmitsEveryDay(t2, today, count);
    }
  }

  /** The field-by-field comparison agrees with comparing tick counts, which
      is what DateTime's `>=` does. */
  lemma NotBeforeIsTickOrder(a: DateTime, b: DateTime)
    requires ValidDateTime(a) && ValidDateTime(b)
    ensures NotBefore(a, b) <==> TotalTicks(a) >= TotalTicks(b)
  {
    DayNumberOrder(a.date, b.date);
    DayNumberOrder(b.date, a.date);
    var da, db := DayNumber(a.date), DayNumber(b.date);
    if da < db {
      assert TotalTicks(a) < (da + 1) * TicksPerDay <= TotalTicks(b);
    } else if db < da {
      assert TotalTicks(b) < (db + 1) * TicksPerDay <= TotalTicks(a);
    }
  }

  /** Every emitted task copies UserId, Title, Description, Priority and
      CategoryId from the template, is not completed, is due on its date,
      and is stamped with the time of the run. */
  lemma EmittedTaskFields(t: RecurringTaskTemplate, dues: seq<Date>, now: DateTime, k: int)
    requires 0 <= k < |dues|
    ensures var task := TasksFor(t, dues, now)[k];
      && |TasksFor(t, dues, now)| == |dues|
      && task.userId == t.userId && task.title == t.title && task.description == t.description
      && task.priority == t.priority && task.categoryId == t.categoryId
      && !task.isCompleted && task.dueDate == Some(dues[k]) && task.createdDate == now
  {
  }
}
