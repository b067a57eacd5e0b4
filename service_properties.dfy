/** What the service's operations promise over the store: the batch runs
    every selected template from its own state and no other, a template that
    throws does not stop the others, saved tasks are never lost, and the
    toggle and creation operations do what their names say. */
module ServiceProperties {
  import opened Wrappers
  import opened Calendar
  import opened Models
  import opened Recurrence
  import opened Generation
  import opened GenerationProperties
  import opened Service

  // ---------------------------------------------------------------------
  // One template

  /** Processing template i changes no other template. */
  lemma ProcessTemplateLeavesOthers(st: Store, i: int, now: DateTime, j: int)
    requires ValidStore(st) && 0 <= i < |st.templates| && ValidDate(now.date)
    requires 0 <= j < |st.templates| && j != i
    ensures ProcessTemplate(st, i, now).templates[j] == st.templates[j]
  {
  }

  /** The context is saved exactly when the run emitted a task and did not
      throw; saving writes the earlier pending tasks too. */
  lemma ProcessTemplateSaves(st: Store, i: int, now: DateTime)
    requires ValidStore(st) && 0 <= i < |st.templates| && ValidDate(now.date)
    ensures var r, run := ProcessTemplate(st, i, now), TemplateRun(st, i, now);
      var added := TasksFor(st.templates[i], run.dues, now);
      && r.savedTasks + r.pendingTasks == st.savedTasks + st.pendingTasks + added
      && (r.pendingTasks == [] <==> (run.dues != [] && !run.outcome.Failed?) || st.pendingTasks + added == [])
  {
  }

  /** Processing a template only appends to the saved tasks. */
  lemma ProcessTemplateKeepsSaved(st: Store, i: int, now: DateTime)
    requires ValidStore(st) && 0 <= i < |st.templates| && ValidDate(now.date)
    ensures st.savedTasks <= ProcessTemplate(st, i, now).savedTasks
  {
  }

  /** After a run that saved, the count the next query returns has grown by
      the pending tasks it counts and by one for every emitted date (when the
      run happens no earlier than the template's creation). */
  lemma ProcessTemplateCount(st: Store, i: int, now: DateTime)
    requires ValidStore(st) && 0 <= i < |st.templates| && ValidDate(now.date)
    requires NotBefore(now, st.templates[i].createdDate)
    ensures var r, run, t := ProcessTemplate(st, i, now), TemplateRun(st, i, now), st.templates[i];
      run.dues != [] && !run.outcome.Failed? ==>
        GeneratedTaskCount(r.savedTasks, r.templates[i])
          == GeneratedTaskCount(st.savedTasks, t) + GeneratedTaskCount(st.pendingTasks, t) + |run.dues|
  {
    var r, run, t := ProcessTemplate(st, i, now), TemplateRun(st, i, now), st.templates[i];
    if run.dues != [] && !run.outcome.Failed? {
      var added := TasksFor(t, run.dues, now);
      assert r.savedTasks == st.savedTasks + (st.pendingTasks + added);
      GeneratedCountAppend(st.savedTasks, st.pendingTasks + added, t);
      GeneratedCountAppend(st.pendingTasks, added, t);
      GeneratedCountOfRun(t, run.dues, now);
      CountReadsKey(r.savedTasks, r.templates[i], t);
    }
  }

  /** Processing the same template again on the same day, after a run that
      did not throw, emits nothing: the template has moved past today, or
      was deactivated, or its count has not fallen. */
  lemma ProcessTemplateSameDay(st: Store, i: int, now: DateTime)
    requires ValidStore(st) && 0 <= i < |st.templates| && ValidDate(now.date)
    requires !TemplateRun(st, i, now).outcome.Failed?
    ensures TemplateRun(ProcessTemplate(st, i, now), i, now).dues == []
  {
    var r, run, t := ProcessTemplate(st, i, now), TemplateRun(st, i, now), st.templates[i];
    var c1 := GeneratedTaskCount(st.savedTasks, t);
    var more := if run.dues != [] then st.pendingTasks + TasksFor(t, run.dues, now) else [];
    assert r.savedTasks == st.savedTasks + more;
    GeneratedCountAppend(st.savedTasks, more, t);
    CountReadsKey(r.savedTasks, r.templates[i], t);
    GenerateIdempotent(t, now.date, c1, GeneratedTaskCount(r.savedTasks, t));
  }

  /** A template whose calculation throws leaves its tasks pending; the next
      template in the same context that saves writes them along with its own. */
  lemma FailedTasksSavedByNextSave(st: Store, i: int, j: int, now: DateTime)
    requires ValidStore(st) && 0 <= i < |st.templates| && 0 <= j < |st.templates| && ValidDate(now.date)
    requires TemplateRun(st, i, now).outcome.Failed?
    requires var run := TemplateRun(ProcessTemplate(st, i, now), j, now);
      run.dues != [] && !run.outcome.Failed?
    ensures var s1 := ProcessTemplate(st, i, now);
      ProcessTemplate(s1, j, now).savedTasks
        == st.savedTasks + st.pendingTasks
           + TasksFor(st.templates[i], TemplateRun(st, i, now).dues, now)
           + TasksFor(s1.templates[j], TemplateRun(s1, j, now).dues, now)
  {
    GenerateFailsAtLast(st.templates[i], now.date, GeneratedTaskCount(st.savedTasks, st.templates[i]));
  }

  // ---------------------------------------------------------------------
  // The batch

  /** A position the batch does not select keeps its template. */
  lemma {:induction false} BatchLeavesOthers(st: Store, ids: seq<int>, now: DateTime, j: int)
    requires ValidStore(st) && ValidDate(now.date)
    requires forall k :: 0 <= k < |ids| ==> 0 <= ids[k] < |st.templates|
    requires 0 <= j < |st.templates| && j !in ids
    ensures Batch(st, ids, now).templates[j] == st.templates[j]
    decreases |ids|
  {
    if ids != [] {
      var front := ids[..|ids| - 1];
      assert forall x :: x in front ==> x in ids;
      BatchLeavesOthers(st, front, now, j);
      ProcessTemplateLeavesOthers(Batch(st, front, now), ids[|ids| - 1], now, j);
    }
  }

  /** Saved tasks are never taken back: the batch only appends to them. */
  lemma {:induction false} BatchKeepsSaved(st: Store, ids: seq<int>, now: DateTime)
    requires ValidStore(st) && ValidDate(now.date)
    requires forall k :: 0 <= k < |ids| ==> 0 <= ids[k] < |st.templates|
    ensures st.savedTasks <= Batch(st, ids, now).savedTasks
    decreases |ids|
  {
    if ids != [] {
      var front := ids[..|ids| - 1];
      BatchKeepsSaved(st, front, now);
      ProcessTemplateKeepsSaved(Batch(st, front, now), ids[|ids| - 1], now);
    }
  }

  /** Each selected template runs once, from the state it had before the
      batch, on the store the earlier templates left behind; a template that
      throws does not stop the ones after it. */
  lemma {:induction false} BatchRunsEach(st: Store, ids: seq<int>, now: DateTime, k: int)
    requires ValidStore(st) && ValidDate(now.date)
    requires forall m :: 0 <= m < |ids| ==> 0 <= ids[m] < |st.templates|
    requires forall m, n :: 0 <= m < n < |ids| ==> ids[m] != ids[n]
    requires 0 <= k < |ids|
    ensures var before := Batch(st, ids[..k], now);
      && before.templates[ids[k]] == st.templates[ids[k]]
      && Batch(st, ids, now).templates[ids[k]] == TemplateRun(before, ids[k], now).template
    decreases |ids|
  {
    assert ids[k] !in ids[..k];
    BatchLeavesOthers(st, ids[..k], now, ids[k]);
    var front := ids[..|ids| - 1];
    if k < |ids| - 1 {
      assert front[..k] == ids[..k];
      BatchRunsEach(st, front, now, k);
      ProcessTemplateLeavesOthers(Batch(st, front, now), ids[|ids| - 1], now, ids[k]);
    } else {
      assert front == ids[..k];
    }
  }

  /** `GenerateTasksForAllActiveTemplatesAsync` runs exactly the active
      templates that are due today, each from its own state, and leaves the
      others as they are, whatever order the query returns them in. */
  lemma GenerateAllRunsDue(st: Store, now: DateTime, order: seq<int>, j: int)
    requires ValidStore(st) && ValidDate(now.date) && DueOrder(st.templates, now.date, order)
    requires 0 <= j < |st.templates|
    ensures var ids, r := order, GenerateAll(st, now, order);
      && (!Due(st.templates[j], now.date) ==> r.templates[j] == st.templates[j])
      && (Due(st.templates[j], now.date) ==>
            exists k :: (0 <= k < |ids| && ids[k] == j &&
              Batch(st, ids[..k], now).templates[j] == st.templates[j] &&
              r.templates[j] == TemplateRun(Batch(st, ids[..k], now), j, now).template))
  {
    var ids := order;
    if Due(st.templates[j], now.date) {
      var k :| 0 <= k < |ids| && ids[k] == j;
      BatchRunsEach(st, ids, now, k);
    } else {
      BatchLeavesOthers(st, ids, now, j);
    }
  }

  // ---------------------------------------------------------------------
  // Toggle and create

  /** Toggling keeps every template's id and owner, so the second toggle
      finds the same template and flips IsActive back. */
  lemma ToggleTwice(st: Store, id: int, userId: string)
    ensures Toggled(Toggled(st, id, userId), id, userId).templates == st.templates
  {
    match FindTemplate(st.templates, id, userId)
    case None =>
    case Some(k) =>
      var s1 := Toggled(st, id, userId);
      assert forall j :: 0 <= j < |st.templates| ==>
        Owned(s1.templates[j], id, userId) == Owned(st.templates[j], id, userId);
      assert FindTemplate(s1.templates, id, userId) == Some(k);
  }

  /** Toggling flips IsActive of the first template with this id and owner,
      changes nothing else about it or any other template, and does nothing
      at all when there is no such template. */
  lemma ToggleFlipsOnlyMatch(st: Store, id: int, userId: string, j: int)
    requires 0 <= j < |st.templates|
    ensures var r := Toggled(st, id, userId);
      && |r.templates| == |st.templates|
      && (FindTemplate(st.templates, id, userId) == Some(j) ==>
            r.templates[j] == st.templates[j].(isActive := !st.templates[j].isActive))
      && (FindTemplate(st.templates, id, userId) != Some(j) ==> r.templates[j] == st.templates[j])
      && (FindTemplate(st.templates, id, userId).None? ==> r == st)
  {
  }

  /** A newly created template is first due on its StartDate: if that day
      has come and the limits allow it, the first run emits StartDate first. */
  lemma CreatedStartsAtStartDate(template: RecurringTaskTemplate, newId: int, created: DateTime,
                                 today: Date, count: int)
    requires WellFormed(Prepared(template, newId, created)) && ValidDate(today)
    ensures var t := Prepared(template, newId, created);
      SameDefinition(t, template.(id := newId, createdDate := created)) &&
      (LoopGuard(t, today, count) ==> Generate(t, today, count).dues[0] == template.startDate)
  {
    var t := Prepared(template, newId, created);
    GenerateStartsAtNextDue(t, today, count);
  }
}
