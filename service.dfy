/** The recurring-task service over its database context: the templates it
    tracks, the tasks already saved, and the tasks added but not yet saved. */
module Service {
  import opened Wrappers
  import opened Calendar
  import opened Models
  import opened Recurrence
  import opened Generation

  /** What the service sees through its database context. The occurrence
      count queries `savedTasks` only: added tasks are not visible to a query
      until SaveChanges writes them. */
  datatype Store = Store(
    templates: seq<RecurringTaskTemplate>,
    savedTasks: seq<TaskItem>,
    pendingTasks: seq<TaskItem>)

  predicate ValidStore(st: Store) {
    forall i :: 0 <= i < |st.templates| ==> WellFormed(st.templates[i])
  }

  /** SaveChanges: every added task is written. */
  function Saved(st: Store): Store {
    st.(savedTasks := st.savedTasks + st.pendingTasks, pendingTasks := [])
  }

  /** The generation run of template i at time `now`, with the count the
      database reports when it starts. */
  function TemplateRun(st: Store, i: int, now: DateTime): Run
    requires ValidStore(st) && 0 <= i < |st.templates| && ValidDate(now.date)
  {
    var t := st.templates[i];
    Generate(t, now.date, GeneratedTaskCount(st.savedTasks, t))
  }

  /** `GenerateTasksForTemplateAsync` on template i: the emitted tasks are
      added, the template takes its new schedule state, and the context is
      saved when at least one task was generated and nothing threw. */
  function ProcessTemplate(st: Store, i: int, now: DateTime): (r: Store)
    requires ValidStore(st) && 0 <= i < |st.templates| && ValidDate(now.date)
    ensures ValidStore(r) && |r.templates| == |st.templates|
  {
    var t := st.templates[i];
    var run := TemplateRun(st, i, now);
    var added := st.(templates := st.templates[i := run.template],
                     pendingTasks := st.pendingTasks + TasksFor(t, run.dues, now));
    if run.dues != [] && !run.outcome.Failed? then Saved(added) else added
  }

  /** The filter of the batch query: active, and due on or before today. */
  predicate Due(t: RecurringTaskTemplate, today: Date) {
    t.isActive && ValidDate(t.nextDueDate) && ValidDate(today) && DayNumber(t.nextDueDate) <= DayNumber(today)
  }

  /** `ids` lists the positions of the templates the batch query selects,
      each once, in some order: the query has no OrderBy, so the database
      may return the rows in any order. */
  predicate DueOrder(templates: seq<RecurringTaskTemplate>, today: Date, ids: seq<int>) {
    && (forall k :: 0 <= k < |ids| ==> 0 <= ids[k] < |templates| && Due(templates[ids[k]], today))
    && (forall i :: 0 <= i < |templates| && Due(templates[i], today) ==> i in ids)
    && (forall j, k :: 0 <= j < k < |ids| ==> ids[j] != ids[k])
  }

  /** The positions of the templates the batch selects, in store order: one
      of the orders the query may return. */
  function DueTemplates(templates: seq<RecurringTaskTemplate>, today: Date): (ids: seq<int>)
    ensures forall k :: 0 <= k < |ids| ==> 0 <= ids[k] < |templates| && Due(templates[ids[k]], today)
    ensures forall i :: 0 <= i < |templates| && Due(templates[i], today) ==> i in ids
    ensures forall j, k :: 0 <= j < k < |ids| ==> ids[j] < ids[k]
    ensures DueOrder(templates, today, ids)
  {
    DueFrom(templates, today, 0)
  }

  /** The due positions at or after `lo`. */
  function DueFrom(templates: seq<RecurringTaskTemplate>, today: Date, lo: int): (ids: seq<int>)
    requires 0 <= lo <= |templates|
    ensures forall k :: 0 <= k < |ids| ==> lo <= ids[k] < |templates| && Due(templates[ids[k]], today)
    ensures forall i :: lo <= i < |templates| && Due(templates[i], today) ==> i in ids
    ensures forall j, k :: 0 <= j < k < |ids| ==> ids[j] < ids[k]
    decreases |templates| - lo
  {
    if lo == |templates| then []
    else
      var rest := DueFrom(templates, today, lo + 1);
      if Due(templates[lo], today) then [lo] + rest else rest
  }

  /** The foreach of `GenerateTasksForAllActiveTemplatesAsync` over `ids`: a
      template whose run throws is skipped over and the rest still run. */
  function Batch(st: Store, ids: seq<int>, now: DateTime): (r: Store)
    requires ValidStore(st) && ValidDate(now.date)
    requires forall k :: 0 <= k < |ids| ==> 0 <= ids[k] < |st.templates|
    ensures ValidStore(r) && |r.templates| == |st.templates|
  {
    if ids == [] then st
    else
      var front := Batch(st, ids[..|ids| - 1], now);
      ProcessTemplate(front, ids[|ids| - 1], now)
  }

  /** `GenerateTasksForAllActiveTemplatesAsync` at time `now`, when the query
      returns the selected templates in `order`. */
  function GenerateAll(st: Store, now: DateTime, order: seq<int>): (r: Store)
    requires ValidStore(st) && ValidDate(now.date) && DueOrder(st.templates, now.date, order)
    ensures ValidStore(r) && |r.templates| == |st.templates|
  {
    Batch(st, order, now)
  }

  predicate Owned(t: RecurringTaskTemplate, id: int, userId: string) {
    t.id == id && t.userId == userId
  }

  /** `GetTemplateByIdAsync`: the first template with this id and owner. */
  function FindTemplate(templates: seq<RecurringTaskTemplate>, id: int, userId: string): (r: Option<int>)
    ensures r.Some? ==> 0 <= r.value < |templates| && Owned(templates[r.value], id, userId)
    ensures r.Some? ==> forall j :: 0 <= j < r.value ==> !Owned(templates[j], id, userId)
    ensures r.None? ==> forall j :: 0 <= j < |templates| ==> !Owned(templates[j], id, userId)
  {
    if templates == [] then None
    else if Owned(templates[0], id, userId) then Some(0)
    else match FindTemplate(templates[1..], id, userId)
      case None => None
      case Some(k) => Some(k + 1)
  }

  /** `ToggleTemplateStatusAsync`: flip IsActive of the found template and
      save; do nothing when there is none. */
  function Toggled(st: Store, id: int, userId: string): Store {
    match FindTemplate(st.templates, id, userId)
    case None => st
    case Some(k) => Saved(st.(templates := st.templates[k := st.templates[k].(isActive := !st.templates[k].isActive)]))
  }

  /** The template `CreateTemplateAsync` stores: NextDueDate starts at
      StartDate, CreatedDate is the time of the call, and the database
      assigns the key. */
  function Prepared(template: RecurringTaskTemplate, newId: int, now: DateTime): RecurringTaskTemplate {
    template.(id := newId, nextDueDate := template.startDate, createdDate := now)
  }

  class RecurringTaskService {
    var templates: seq<RecurringTaskTemplate>
    var savedTasks: seq<TaskItem>
    var pendingTasks: seq<TaskItem>

    function State(): Store
      reads this
    {
      Store(templates, savedTasks, pendingTasks)
    }

    predicate Valid()
      reads this
    {
      ValidStore(State())
    }

    constructor(st: Store)
      requires ValidStore(st)
      ensures Valid() && State() == st
    {
      templates := st.templates;
      savedTasks := st.savedTasks;
      pendingTasks := st.pendingTasks;
    }

    /** A new scope's context: the same database, nothing added yet. */
    method OpenScope()
      modifies this
      ensures State() == old(State()).(pendingTasks := [])
    {
      pendingTasks := [];
    }

    method SaveChanges()
      modifies this
      ensures State() == Saved(old(State()))
    {
      savedTasks := savedTasks + pendingTasks;
      pendingTasks := [];
    }

    /** `CreateTemplateAsync`. */
    method CreateTemplate(template: RecurringTaskTemplate, newId: int, now: DateTime)
      requires Valid() && WellFormed(Prepared(template, newId, now))
      modifies this
      ensures Valid()
      ensures State() == Saved(old(State()).(templates := old(templates) + [Prepared(template, newId, now)]))
    {
      var created := template.(createdDate := now);
      created := created.(nextDueDate := created.startDate);
      created := created.(id := newId);
      templates := templates + [created];
      SaveChanges();
    }

    /** `ToggleTemplateStatusAsync`. */
    method ToggleTemplateStatus(id: int, userId: string)
      requires Valid()
      modifies this
      ensures Valid() && State() == Toggled(old(State()), id, userId)
    {
      var found := FindTemplate(templates, id, userId);
      if found.Some? {
        var k := found.value;
        templates := templates[k := templates[k].(isActive := !templates[k].isActive)];
        SaveChanges();
      }
    }

    /** `GenerateTasksForTemplateAsync` on the template at position i. It
        returns the exception the calculator threw, if any; the template then
        keeps the state it had when it threw and nothing is saved. */
    method GenerateTasksForTemplate(i: int, now: DateTime) returns (error: Option<Error>)
      requires Valid() && 0 <= i < |templates| && ValidDate(now.date)
      modifies this
      ensures Valid()
      ensures State() == ProcessTemplate(old(State()), i, now)
      ensures var run := TemplateRun(old(State()), i, now);
        error == if run.outcome.Failed? then Some(run.outcome.error) else None
    {
      ghost var run := TemplateRun(State(), i, now);
      var template := templates[i];
      var tasksGenerated;
      template, tasksGenerated, error := GenerateOccurrences(template, now, run);
      templates := templates[i := template];
      if error.None? && tasksGenerated > 0 {
        SaveChanges();
      }
    }

    /** The while loop of `GenerateTasksForTemplateAsync`: add a task for
        each due occurrence and advance the template, until the loop
        condition fails, the template is deactivated, or the calculator
        throws. `run` is the run the loop carries out. */
    method GenerateOccurrences(template0: RecurringTaskTemplate, now: DateTime, ghost run: Run)
      returns (template: RecurringTaskTemplate, tasksGenerated: nat, error: Option<Error>)
      requires WellFormed(template0) && ValidDate(now.date)
      requires run == Generate(template0, now.date, GeneratedTaskCount(savedTasks, template0))
      modifies this
      ensures templates == old(templates) && savedTasks == old(savedTasks)
      ensures pendingTasks == old(pendingTasks) + TasksFor(template0, run.dues, now)
      ensures template == run.template && tasksGenerated == |run.dues|
      ensures error == if run.outcome.Failed? then Some(run.outcome.error) else None
    {
      var today := now.date;
      ghost var count := GeneratedTaskCount(savedTasks, template0);
      ghost var emitted: seq<Date> := [];
      ghost var stopped := false;
      template := template0;
      tasksGenerated := 0;
      while DayNumber(template.nextDueDate) <= DayNumber(today)
            && ShouldContinue(template, GeneratedTaskCount(savedTasks, template))
        invariant WellFormed(template) && SameDefinition(template, template0)
        invariant templates == old(templates) && savedTasks == old(savedTasks)
        invariant pendingTasks == old(pendingTasks) + TasksFor(template0, emitted, now)
        invariant tasksGenerated == |emitted| && !stopped
        invariant Continues(run, emitted, Generate(template, today, count))
        decreases Remaining(template.nextDueDate, today)
      {
        CountReadsKey(savedTasks, template, template0);
        Advance(run, emitted, template, today, count);
        var task := TaskItem(template.userId, template.title, template.description,
          Some(template.nextDueDate), template.priority, template.categoryId, false, now);
        TasksForSnoc(template0, emitted, template.nextDueDate, now);
        pendingTasks := pendingTasks + [task];
        emitted := emitted + [template.nextDueDate];
        tasksGenerated := tasksGenerated + 1;
        template := template.(lastGeneratedDate := Some(template.nextDueDate));
        var next := CalculateNextDueDate(template.nextDueDate, template);
        if next.Failure? {
          Finish(run, emitted, Run([], template, Failed(next.error)));
          error := Some(next.error);
          return;
        }
        template := template.(nextDueDate := next.value);
        CountReadsKey(savedTasks, template, template0);
        if !ShouldContinue(template, GeneratedTaskCount(savedTasks, template)) {
          template := template.(isActive := false);
          Finish(run, emitted, Run([], template, Deactivated));
          stopped := true;
          break;
        }
      }
      if !stopped {
        CountReadsKey(savedTasks, template, template0);
        assert !LoopGuard(template, today, count);
        Finish(run, emitted, Generate(template, today, count));
      }
      error := None;
    }

    /** `GenerateTasksForAllActiveTemplatesAsync`: select the active, due
        templates, then run each one, catching what it throws. `order` is the
        order in which the database returns the selected rows. */
    method GenerateTasksForAllActiveTemplates(now: DateTime, order: seq<int>)
      requires Valid() && ValidDate(now.date) && DueOrder(templates, now.date, order)
      modifies this
      ensures Valid() && State() == GenerateAll(old(State()), now, order)
    {
      ghost var st0 := State();
      var templatesToProcess := order;
      var k := 0;
      while k < |templatesToProcess|
        invariant 0 <= k <= |templatesToProcess|
        invariant Valid() && |templates| == |st0.templates|
        invariant State() == Batch(st0, templatesToProcess[..k], now)
      {
        BatchSnoc(st0, templatesToProcess, k, now);
        var error := GenerateTasksForTemplate(templatesToProcess[k], now);
        k := k + 1;
      }
      assert templatesToProcess[..k] == templatesToProcess;
    }
  }

  /** The batch over the first k + 1 positions runs position k after the
      batch over the first k. */
  lemma BatchSnoc(st: Store, ids: seq<int>, k: int, now: DateTime)
    requires ValidStore(st) && ValidDate(now.date) && 0 <= k < |ids|
    requires forall j :: 0 <= j < |ids| ==> 0 <= ids[j] < |st.templates|
    ensures Batch(st, ids[..k + 1], now) == ProcessTemplate(Batch(st, ids[..k], now), ids[k], now)
  {
    assert ids[..k + 1][..k] == ids[..k];
  }

  /** The occurrence count reads the template's UserId, Title and
      CreatedDate only. */
  lemma {:induction false} CountReadsKey(tasks: seq<TaskItem>, a: RecurringTaskTemplate, b: RecurringTaskTemplate)
    requires a.userId == b.userId && a.title == b.title && a.createdDate == b.createdDate
    ensures GeneratedTaskCount(tasks, a) == GeneratedTaskCount(tasks, b)
    decreases |tasks|
  {
    if tasks != [] {
      CountReadsKey(tasks[..|tasks| - 1], a, b);
    }
  }

  lemma TasksForSnoc(t: RecurringTaskTemplate, dues: seq<Date>, due: Date, now: DateTime)
    ensures TasksFor(t, dues + [due], now) == TasksFor(t, dues, now) + [TaskFor(t, due, now)]
  {
  }

  /** The generated run g is the dues `emitted` so far followed by the run h
      still to come. */
  predicate Continues(g: Run, emitted: seq<Date>, h: Run) {
    g.dues == emitted + h.dues && g.template == h.template && g.outcome == h.outcome
  }

  lemma ContinuesStep(g: Run, emitted: seq<Date>, h: Run, h2: Run, due: Date)
    requires Continues(g, emitted, h)
    requires h.dues == [due] + h2.dues && h.template == h2.template && h.outcome == h2.outcome
    ensures Continues(g, emitted + [due], h2)
  {
    assert emitted + h.dues == (emitted + [due]) + h2.dues;
  }

  lemma Finish(g: Run, emitted: seq<Date>, h: Run)
    requires Continues(g, emitted, h) && h.dues == []
    ensures g.dues == emitted && g.template == h.template && g.outcome == h.outcome
  {
    assert emitted + [] == emitted;
  }

  /** One turn of the loop whose calculation throws. */
  lemma GenerateStepFails(t: RecurringTaskTemplate, today: Date, count: int)
    requires WellFormed(t) && ValidDate(today) && LoopGuard(t, today, count)
    requires CalculateNextDueDate(t.nextDueDate, t.(lastGeneratedDate := Some(t.nextDueDate))).Failure?
    ensures var t1 := t.(lastGeneratedDate := Some(t.nextDueDate));
      Generate(t, today, count)
        == Run([t.nextDueDate], t1, Failed(CalculateNextDueDate(t.nextDueDate, t1).error))
  {
  }

  /** One turn of the loop that deactivates the template. */
  lemma GenerateStepDeactivates(t: RecurringTaskTemplate, today: Date, count: int)
    requires WellFormed(t) && ValidDate(today) && LoopGuard(t, today, count)
    requires var t1 := t.(lastGeneratedDate := Some(t.nextDueDate));
      var c := CalculateNextDueDate(t.nextDueDate, t1);
      c.Success? && !ShouldContinue(t1.(nextDueDate := c.value), count)
    ensures var t1 := t.(lastGeneratedDate := Some(t.nextDueDate));
      var c := CalculateNextDueDate(t.nextDueDate, t1);
      Generate(t, today, count) == Run([t.nextDueDate], t1.(nextDueDate := c.value, isActive := false), Deactivated)
  {
  }

  /** One turn of the loop that goes round again. */
  lemma GenerateStepContinues(t: RecurringTaskTemplate, today: Date, count: int)
    requires WellFormed(t) && ValidDate(today) && LoopGuard(t, today, count)
    requires var t1 := t.(lastGeneratedDate := Some(t.nextDueDate));
      var c := CalculateNextDueDate(t.nextDueDate, t1);
      c.Success? && ShouldContinue(t1.(nextDueDate := c.value), count)
    ensures var t1 := t.(lastGeneratedDate := Some(t.nextDueDate));
      var c := CalculateNextDueDate(t.nextDueDate, t1);
      var g, h := Generate(t, today, count), Generate(t1.(nextDueDate := c.value), today, count);
      g.dues == [t.nextDueDate] + h.dues && g.template == h.template && g.outcome == h.outcome
  {
  }

  /** One turn of the generation loop, from the template `t` on which the
      loop condition holds: how the run still to come continues. */
  lemma Advance(g: Run, emitted: seq<Date>, t: RecurringTaskTemplate, today: Date, count: int)
    requires WellFormed(t) && ValidDate(today) && LoopGuard(t, today, count)
    requires Continues(g, emitted, Generate(t, today, count))
    ensures var t1 := t.(lastGeneratedDate := Some(t.nextDueDate));
      var c := CalculateNextDueDate(t.nextDueDate, t1);
      var e2 := emitted + [t.nextDueDate];
      && (c.Failure? ==> Continues(g, e2, Run([], t1, Failed(c.error))))
      && (c.Success? && !ShouldContinue(t1.(nextDueDate := c.value), count) ==>
            Continues(g, e2, Run([], t1.(nextDueDate := c.value, isActive := false), Deactivated)))
      && (c.Success? && ShouldContinue(t1.(nextDueDate := c.value), count) ==>
            Continues(g, e2, Generate(t1.(nextDueDate := c.value), today, count)))
  {
    var t1 := t.(lastGeneratedDate := Some(t.nextDueDate));
    var c := CalculateNextDueDate(t.nextDueDate, t1);
    if c.Failure? {
      GenerateStepFails(t, today, count);
      ContinuesStep(g, emitted, Generate(t, today, count), Run([], t1, Failed(c.error)), t.nextDueDate);
    } else if !ShouldContinue(t1.(nextDueDate := c.value), count) {
      GenerateStepDeactivates(t, today, count);
      ContinuesStep(g, emitted, Generate(t, today, count), Run([], t1.(nextDueDate := c.value, isActive := false), Deactivated), t.nextDueDate);
    } else {
      GenerateStepContinues(t, today, count);
      ContinuesStep(g, emitted, Generate(t, today, count), Generate(t1.(nextDueDate := c.value), today, count), t.nextDueDate);
    }
  }
}
