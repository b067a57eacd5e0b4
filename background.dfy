/** The hosted background service that triggers generation once a day: the
    first run at 02:00 today, or tomorrow when that has passed, then one run
    per timer tick, each in its own scope, each with its failure caught. */
module Background {
  import opened Calendar
  import opened Service
  import opened ServiceProperties

  /** `_dueTime`: 2 hours after midnight. */
  const DueTime: int := 2 * TicksPerHour

  /** `_period`: 24 hours. */
  const Period: int := 24 * TicksPerHour

  /** The first run: today at 02:00, or tomorrow at 02:00 when `now` is
      already past it. */
  function NextRun(now: DateTime): (r: DateTime)
    requires ValidDateTime(now)
    ensures ValidDateTime(r) && r.ticks == DueTime
    ensures now.ticks <= DueTime ==> r.date == now.date
    ensures now.ticks > DueTime ==> DayNumber(r.date) == DayNumber(now.date) + 1
    ensures TotalTicks(now) <= TotalTicks(r) < TotalTicks(now) + Period
  {
    var today := DateTime(now.date, DueTime);
    if TotalTicks(now) > TotalTicks(today) then DateTime(NextDay(now.date), DueTime) else today
  }

  /** `nextRun - now`: never negative and shorter than one period. */
  function InitialDelay(now: DateTime): (d: int)
    requires ValidDateTime(now)
    ensures 0 <= d < Period
    ensures d == 0 <==> now.ticks == DueTime
  {
    TotalTicks(NextRun(now)) - TotalTicks(now)
  }

  /** The first run is the earliest 02:00 that is not before `now`. */
  lemma NextRunIsEarliest(now: DateTime, t: DateTime)
    requires ValidDateTime(now) && ValidDateTime(t) && t.ticks == DueTime
    requires TotalTicks(t) >= TotalTicks(now)
    ensures TotalTicks(NextRun(now)) <= TotalTicks(t)
  {
    var dn, dt := DayNumber(now.date), DayNumber(t.date);
    if dt <= dn {
      assert TotalTicks(t) <= dn * TicksPerDay + DueTime;
      assert now.ticks <= DueTime;
    }
  }

  /** One timer tick: the time of the run, and whether the run threw. Every
      template's exception is caught inside the batch, so a run that throws
      does so in the template query, before it has changed anything. */
  datatype Tick = Tick(now: DateTime, fails: bool)

  predicate ValidTicks(ticks: seq<Tick>) {
    forall k :: 0 <= k < |ticks| ==> ValidDate(ticks[k].now.date)
  }

  /** `GenerateRecurringTasks` inside the try/catch: a new scope, with
      nothing added yet, then the batch at the tick's time. */
  function RunOnce(st: Store, tick: Tick): (r: Store)
    requires ValidStore(st) && ValidDate(tick.now.date)
    ensures ValidStore(r) && |r.templates| == |st.templates|
  {
    var scoped := st.(pendingTasks := []);
    if tick.fails then scoped else GenerateAll(scoped, tick.now, DueTemplates(scoped.templates, tick.now.date))
  }

  /** The runs of the ticks in order. */
  function RunTicks(st: Store, ticks: seq<Tick>): (r: Store)
    requires ValidStore(st) && ValidTicks(ticks)
    ensures ValidStore(r) && |r.templates| == |st.templates|
  {
    if ticks == [] then st
    else RunOnce(RunTicks(st, ticks[..|ticks| - 1]), ticks[|ticks| - 1])
  }

  /** `ExecuteAsync`: wait for the first 02:00 unless cancelled, then run
      once per tick of `ticks`, the first run before any timer wait. A run
      that throws is caught and the loop goes on to the next tick; the
      ticks end when the timer is cancelled. */
  method ExecuteAsync(service: RecurringTaskService, now: DateTime, cancelled: bool, ticks: seq<Tick>)
    returns (delay: int, runs: nat)
    requires service.Valid() && ValidDateTime(now) && ValidTicks(ticks)
    requires !cancelled ==> ticks != []
    modifies service
    ensures delay == InitialDelay(now)
    ensures service.Valid()
    ensures cancelled ==> runs == 0 && service.State() == old(service.State())
    ensures !cancelled ==> runs == |ticks| && service.State() == RunTicks(old(service.State()), ticks)
  {
    var nextRun := DateTime(now.date, DueTime);
    if TotalTicks(now) > TotalTicks(nextRun) {
      nextRun := DateTime(NextDay(now.date), DueTime);
    }
    delay := TotalTicks(nextRun) - TotalTicks(now);
    runs := 0;
    if cancelled {
      return;
    }
    ghost var st0 := service.State();
    var i := 0;
    var more := true;
    while more
      invariant 0 <= i <= |ticks| && runs == i && (more <==> i < |ticks|)
      invariant service.Valid() && service.State() == RunTicks(st0, ticks[..i])
      decreases |ticks| - i
    {
      assert ticks[..i + 1][..i] == ticks[..i];
      var tick := ticks[i];
      service.OpenScope();
      if !tick.fails {
        service.GenerateTasksForAllActiveTemplates(tick.now, DueTemplates(service.templates, tick.now.date));
      }
      runs := runs + 1;
      i := i + 1;
      more := i < |ticks|;
    }
    assert ticks[..i] == ticks;
  }

  /** Saved tasks survive every run: each run only appends to them. */
  lemma {:induction false} RunTicksKeepSaved(st: Store, ticks: seq<Tick>)
    requires ValidStore(st) && ValidTicks(ticks)
    ensures st.savedTasks <= RunTicks(st, ticks).savedTasks
    decreases |ticks|
  {
    if ticks != [] {
      var front := RunTicks(st, ticks[..|ticks| - 1]);
      RunTicksKeepSaved(st, ticks[..|ticks| - 1]);
      var tick := ticks[|ticks| - 1];
      var scoped := front.(pendingTasks := []);
      if !tick.fails {
        BatchKeepsSaved(scoped, DueTemplates(scoped.templates, tick.now.date), tick.now);
      }
    }
  }

  /** A run that throws leaves the templates and the saved tasks as they
      were, and the runs after it go on from there. */
  lemma RunTicksSkipsFailure(st: Store, ticks: seq<Tick>, k: int)
    requires ValidStore(st) && ValidTicks(ticks) && 0 <= k < |ticks| && ticks[k].fails
    ensures var before, after := RunTicks(st, ticks[..k]), RunTicks(st, ticks[..k + 1]);
      after.templates == before.templates && after.savedTasks == before.savedTasks && after.pendingTasks == []
  {
    assert ticks[..k + 1][..k] == ticks[..k];
  }

  /** Tasks a template left added but unsaved when its run ended are not
      saved by the next run, which works in a new scope. */
  lemma NextRunDiscardsPending(st: Store, tick: Tick)
    requires ValidStore(st) && ValidDate(tick.now.date)
    ensures RunOnce(st, tick) == RunOnce(st.(pendingTasks := []), tick)
  {
  }
}
