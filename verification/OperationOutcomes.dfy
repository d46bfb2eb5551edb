/** What the action rows of an operation say about the task that runs it, and for which operations
    the override guards mean what they say they mean. */
module OperationOutcomes {
  import opened Options
  import opened OperationTable
  import opened OperationProtocol
  import opened OperationInvariant
  import opened OperationTheorems

  // ---- rows carry what their task declares ----

  /** The row of a task's j-th action has the slug and the flag of the j-th declaration. */
  ghost predicate RowNamed(s: System, a: nat)
    requires a in s.db.actions
  {
    var row := s.db.actions[a];
    row.op in s.tasks &&
    var t := s.tasks[row.op];
    forall j :: 0 <= j < |Ids(t.phase)| && Ids(t.phase)[j] == a ==>
      j < |t.plan| && row.slug == t.plan[j].slug && row.recoverable == t.plan[j].recoverable
  }

  ghost predicate Named(s: System) {
    forall a :: a in s.db.actions ==> RowNamed(s, a)
  }

  /** A row that keeps its names, of a task that keeps its plan and puts it at no new place. */
  ghost predicate CarriedOver(s: System, s': System, a: nat)
    requires a in s'.db.actions
  {
    a in s.db.actions &&
    var row, row' := s.db.actions[a], s'.db.actions[a];
    && row'.op == row.op && row'.slug == row.slug && row'.recoverable == row.recoverable
    && row.op in s.tasks && row.op in s'.tasks
    && s'.tasks[row.op].plan == s.tasks[row.op].plan
    && (forall j :: 0 <= j < |Ids(s'.tasks[row.op].phase)| && Ids(s'.tasks[row.op].phase)[j] == a ==>
          j < |Ids(s.tasks[row.op].phase)| && Ids(s.tasks[row.op].phase)[j] == a)
  }

  lemma CarriedNames(s: System, s': System, a: nat)
    requires a in s'.db.actions && CarriedOver(s, s', a) && RowNamed(s, a)
    ensures RowNamed(s', a)
  {
  }

  /** Statements that write no action row. */
  predicate Quiet(e: Event) {
    TaskEvent(e) && !e.Add? && !e.StartOne? && !e.Item? && !e.Succeed? && !e.StoreFailure?
  }

  lemma QuietRows(s: System, e: Event, a: nat)
    requires Quiet(e) && Enabled(s, e) && a in TaskStep(s, e).db.actions
    ensures a in s.db.actions && TaskStep(s, e).db.actions[a] == s.db.actions[a]
  {
  }

  lemma QuietTask(s: System, e: Event)
    requires Quiet(e) && Enabled(s, e)
    ensures
      var t, t' := s.tasks[e.x], TaskStep(s, e).tasks[e.x];
      t'.plan == t.plan && (Ids(t'.phase) == Ids(t.phase) || Ids(t'.phase) == [])
  {
  }

  lemma QuietTasks(s: System, e: Event, y: nat)
    requires Quiet(e) && Enabled(s, e) && y in s.tasks
    ensures
      var s' := TaskStep(s, e);
      && y in s'.tasks && s'.tasks[y].plan == s.tasks[y].plan
      && (Ids(s'.tasks[y].phase) == Ids(s.tasks[y].phase) || Ids(s'.tasks[y].phase) == [])
  {
    QuietTask(s, e);
    if y != e.x {
      OtherTasks(s, e, y);
    }
  }

  lemma CarriedRow(s: System, s': System, a: nat)
    requires a in s.db.actions && a in s'.db.actions && s'.db.actions[a] == s.db.actions[a]
    requires s.db.actions[a].op in s.tasks && s.db.actions[a].op in s'.tasks
    requires
      var t, t' := s.tasks[s.db.actions[a].op], s'.tasks[s.db.actions[a].op];
      t'.plan == t.plan && (Ids(t'.phase) == Ids(t.phase) || Ids(t'.phase) == [])
    ensures CarriedOver(s, s', a)
  {
  }

  lemma QuietTaskStep(s: System, e: Event, a: nat)
    requires Inv(s) && Quiet(e) && Enabled(s, e) && a in TaskStep(s, e).db.actions
    ensures CarriedOver(s, TaskStep(s, e), a)
  {
    QuietRows(s, e, a);
    assert ActionOk(s, a);
    QuietTasks(s, e, s.db.actions[a].op);
    CarriedRow(s, TaskStep(s, e), a);
  }

  lemma ViewCarries(s: System, e: Event, a: nat)
    requires Inv(s) && !TaskEvent(e) && Enabled(s, e) && a in ViewStep(s, e).db.actions
    ensures CarriedOver(s, ViewStep(s, e), a)
  {
    ViewRows(s, e, a);
    assert ActionOk(s, a);
    ViewsLeaveTasks(s, e, s.db.actions[a].op);
  }

  lemma ViewRows(s: System, e: Event, a: nat)
    requires !TaskEvent(e) && Enabled(s, e) && a in ViewStep(s, e).db.actions
    ensures a in s.db.actions && ViewStep(s, e).db.actions[a] == s.db.actions[a]
  {
  }

  lemma AddedCarries(s: System, x: nat, a: nat)
    requires Enabled(s, Add(x)) && a in s.db.actions && a != s.db.nextAction && s.db.actions[a].op in s.tasks
    ensures a in Added(s, x).db.actions && CarriedOver(s, Added(s, x), a)
  {
  }

  lemma AddedNew(s: System, x: nat)
    requires Enabled(s, Add(x)) && x in s.db.ops
    requires forall i :: 0 <= i < |s.tasks[x].phase.ids| ==> s.tasks[x].phase.ids[i] < s.db.nextAction
    ensures s.db.nextAction in Added(s, x).db.actions && RowNamed(Added(s, x), s.db.nextAction)
  {
  }

  lemma AddedNames(s: System, x: nat, a: nat)
    requires Inv(s) && Named(s) && Enabled(s, Add(x)) && a in Added(s, x).db.actions
    ensures RowNamed(Added(s, x), a)
  {
    if a == s.db.nextAction {
      assert TaskOk(s, x);
      AddedNew(s, x);
    } else {
      assert a in s.db.actions && ActionOk(s, a) && RowNamed(s, a);
      AddedCarries(s, x, a);
      CarriedNames(s, Added(s, x), a);
    }
  }

  lemma StartedCarries(s: System, x: nat, a: nat)
    requires AtAction(s, x) && s.tasks[x].phase.Executing? && a in ActionStarted(s, x).db.actions
    requires a in s.db.actions && s.db.actions[a].op in s.tasks
    ensures CarriedOver(s, ActionStarted(s, x), a)
  {
  }

  lemma StartedNames(s: System, x: nat, a: nat)
    requires Inv(s) && Named(s) && Enabled(s, StartOne(x)) && a in ActionStarted(s, x).db.actions
    ensures RowNamed(ActionStarted(s, x), a)
  {
    assert a in s.db.actions && ActionOk(s, a) && RowNamed(s, a);
    StartedCarries(s, x, a);
    CarriedNames(s, ActionStarted(s, x), a);
  }

  /** The row a task writes for its current action, and the rows it leaves. */
  lemma WrittenNames(s: System, s': System, x: nat, row: Action, a: nat)
    requires Inv(s) && Named(s) && AtAction(s, x) && Written(s, s', x, row) && a in s'.db.actions
    requires s'.tasks[x].plan == s.tasks[x].plan
    requires
      var spec := s.tasks[x].plan[s.tasks[x].phase.k];
      row.slug == spec.slug && row.recoverable == spec.recoverable
    ensures RowNamed(s', a)
  {
    var ids, k := s.tasks[x].phase.ids, s.tasks[x].phase.k;
    assert TaskOk(s, x);
    if a == ids[k] {
      assert forall j :: 0 <= j < |ids| && ids[j] == a ==> j == k;
    } else {
      assert ActionOk(s, a) && RowNamed(s, a);
      CarriedNames(s, s', a);
    }
  }

  /** A save by a task whose operation's row is there writes the current row. */
  lemma SaveWrites(s: System, e: Event, result: Result)
    requires TaskEvent(e) && Enabled(s, e) && e.x in s.db.ops && Saves(e, result)
    ensures Written(s, TaskStep(s, e), e.x, Row(s, e.x, s.tasks[e.x].phase.k, result))
    ensures TaskStep(s, e).tasks[e.x].plan == s.tasks[e.x].plan
  {
  }

  predicate Saves(e: Event, result: Result) {
    (e.Item? && result.Unfinished?) || (e.Succeed? && result.Succeeded?) || (e.StoreFailure? && result.Failed?)
  }

  lemma SaveFails(s: System, e: Event, result: Result)
    requires TaskEvent(e) && Enabled(s, e) && e.x !in s.db.ops && Saves(e, result)
    ensures TaskStep(s, e).db == s.db
  {
  }

  /** When its operation's row is gone, so are all of its rows, and a save changes none. */
  lemma SavedNames(s: System, e: Event, result: Result, a: nat)
    requires Inv(s) && Named(s) && TaskEvent(e) && Enabled(s, e) && Saves(e, result)
    requires a in TaskStep(s, e).db.actions
    ensures RowNamed(TaskStep(s, e), a)
  {
    if e.x in s.db.ops {
      SaveWrites(s, e, result);
      WrittenNames(s, TaskStep(s, e), e.x, Row(s, e.x, s.tasks[e.x].phase.k, result), a);
    } else {
      SaveFails(s, e, result);
      NoRows(s, e.x);
      assert ActionOk(s, a) && RowNamed(s, a);
      OtherTasks(s, e, s.db.actions[a].op);
      CarriedNames(s, TaskStep(s, e), a);
    }
  }

  lemma TaskStepNames(s: System, e: Event, a: nat)
    requires Inv(s) && Named(s) && TaskEvent(e) && Enabled(s, e) && a in TaskStep(s, e).db.actions
    ensures RowNamed(TaskStep(s, e), a)
  {
    if Quiet(e) {
      assert ActionOk(s, a) && RowNamed(s, a) by { QuietRows(s, e, a); }
      QuietTaskStep(s, e, a);
      CarriedNames(s, TaskStep(s, e), a);
    } else if e.Add? {
      AddedNames(s, e.x, a);
    } else if e.StartOne? {
      StartedNames(s, e.x, a);
    } else {
      SavedNames(s, e, if e.Item? then Unfinished else if e.Succeed? then Succeeded else Failed, a);
    }
  }

  lemma {:induction false} NamedReachable(events: seq<Event>)
    ensures Named(After(events))
  {
    if events != [] {
      var s, e := After(events[..|events| - 1]), events[|events| - 1];
      NamedReachable(events[..|events| - 1]);
      Reachable(events[..|events| - 1]);
      if Enabled(s, e) {
        forall a | a in Step(s, e).db.actions ensures RowNamed(Step(s, e), a) {
          if TaskEvent(e) {
            TaskStepNames(s, e, a);
          } else {
            ViewCarries(s, e, a);
            CarriedNames(s, Step(s, e), a);
          }
        }
      }
    }
  }

  // ---- what the rows of a task that is through hold ----

  /** The row as add_action() creates it. */
  function Planned(x: nat, spec: Spec): Action {
    Action(x, spec.slug, spec.recoverable, false, Unfinished)
  }

  /** The task has stored its k-th action's failure, or all its actions have returned. */
  predicate Through(t: Task, k: nat) {
    (t.phase.Stored? && t.phase.k == k) || (t.phase.Executing? && t.phase.k == k == |t.phase.ids|)
  }

  /** In every interleaving, whatever rows are left of an operation whose task is through are those
      that ExecuteOperation() leaves: the k actions that returned are True, the next is False, the
      others have not started. */
  lemma RowsAreOutcome(events: seq<Event>, a: nat, k: nat) returns (j: nat)
    requires a in After(events).db.actions && After(events).db.actions[a].op in After(events).tasks
    requires Through(After(events).tasks[After(events).db.actions[a].op], k)
    ensures
      var s := After(events);
      var x := s.db.actions[a].op;
      var t := s.tasks[x];
      && k == t.returned && |t.phase.ids| == |t.plan|
      && j < |t.plan| && t.phase.ids[j] == a
      && s.db.actions[a] == Outcome(Planned(x, t.plan[j]), j, k)
  {
    Reachable(events);
    NamedReachable(events);
    var s := After(events);
    j := PlaceOf(s, a);
    assert TaskOk(s, s.db.actions[a].op) && RowNamed(s, a);
  }

  /** A failed row of an operation is that of the action at which its task stopped. */
  lemma FailedRow(events: seq<Event>, x: nat, b: nat)
    requires b in After(events).db.actions
    requires After(events).db.actions[b].op == x && After(events).db.actions[b].result.Failed?
    ensures
      var s := After(events);
      && x in s.tasks && s.tasks[x].phase.Stored? && s.tasks[x].phase.k < |s.tasks[x].plan| == |s.tasks[x].phase.ids|
      && b == s.tasks[x].phase.ids[s.tasks[x].phase.k]
      && s.db.actions[b] == Outcome(Planned(x, s.tasks[x].plan[s.tasks[x].phase.k]), s.tasks[x].phase.k, s.tasks[x].phase.k)
  {
    Reachable(events);
    FailedMeansStored(After(events), x);
    StoppedInside(After(events), x);
    var j := RowsAreOutcome(events, b, After(events).tasks[x].phase.k);
  }

  lemma StoppedInside(s: System, x: nat)
    requires Inv(s) && x in s.tasks && s.tasks[x].phase.Stored?
    ensures s.tasks[x].phase.k < |s.tasks[x].phase.ids| == |s.tasks[x].plan|
  {
    assert TaskOk(s, x);
  }

  /** Of a failed operation exactly one action has failed: the one at which its task stopped. */
  lemma OneFailure(events: seq<Event>, x: nat) returns (a: nat, k: nat)
    requires HasFailed(After(events).db, x)
    ensures
      var s := After(events);
      && x in s.tasks && s.tasks[x].phase.Stored? && s.tasks[x].phase.k == k < |s.tasks[x].plan|
      && a in s.db.actions && s.db.actions[a] == Outcome(Planned(x, s.tasks[x].plan[k]), k, k)
      && forall b :: b in s.db.actions && s.db.actions[b].op == x && s.db.actions[b].result.Failed? ==> b == a
  {
    var s := After(events);
    a :| a in s.db.actions && s.db.actions[a].op == x && s.db.actions[a].result.Failed?;
    FailedRow(events, x, a);
    k := s.tasks[x].phase.k;
    forall b | b in s.db.actions && s.db.actions[b].op == x && s.db.actions[b].result.Failed? ensures b == a {
      FailedRow(events, x, b);
    }
  }

  // ---- what a passed guard means ----

  /** When a guard lets a view override an operation, the one action that has failed is declared
      recoverable, and it is the one the guard names just if its declaration has that slug. */
  lemma GuardAdmits(events: seq<Event>, x: nat, slug: string) returns (k: nat)
    requires OverrideGuard(After(events).db, x, slug)
    ensures
      var s := After(events);
      && x in s.tasks && k < |s.tasks[x].plan| && s.tasks[x].plan[k].recoverable
      && (OnlySlugFailed(s.db, x, slug) <==> s.tasks[x].plan[k].slug == slug)
  {
    var a;
    a, k := OneFailure(events, x);
    GuardIgnoresSlug(After(events).db, x, slug);
  }

  /** The comment above the guard, for every operation with the given actions and every run: the
      guard lets it through only if the named action is what failed. */
  ghost predicate GuardMeansSlug(plan: seq<Spec>, slug: string) {
    forall events: seq<Event>, x: nat ::
      x in After(events).tasks && After(events).tasks[x].plan == plan && OverrideGuard(After(events).db, x, slug) ==>
        OnlySlugFailed(After(events).db, x, slug)
  }

  // ---- a task left alone ----

  /** The phases between start_operation() and the deletion of the rows. */
  predicate HasStarted(p: Phase) {
    p.Executing? || p.Running? || p.Failing? || p.Stored?
  }

  /** Task x is in a phase, its operation's row stands, and so do the rows of its actions. */
  ghost predicate At(s: System, x: nat, kind: Kind, plan: seq<Spec>, p: Phase) {
    && x in s.tasks && x in s.db.ops
    && s.tasks[x].kind == kind && s.tasks[x].plan == plan && s.tasks[x].phase == p
    && (HasStarted(p) ==> s.db.ops[x].started)
    && forall a :: a in Ids(p) ==> a in s.db.actions
  }

  /** Events of task x that run its operation. */
  predicate OnlyTask(more: seq<Event>, x: nat) {
    forall i :: 0 <= i < |more| ==> Runs(more[i], x)
  }

  predicate Runs(e: Event, x: nat) {
    TaskEvent(e) && e.x == x && !e.EarlyDelete?
  }

  lemma FetchAt(s: System, x: nat, kind: Kind, plan: seq<Spec>)
    requires At(s, x, kind, plan, Queued)
    ensures At(Step(s, Fetch(x)), x, kind, plan, Adding([]))
  {
  }

  lemma AddAt(s: System, x: nat, kind: Kind, plan: seq<Spec>, ids: seq<nat>)
    requires At(s, x, kind, plan, Adding(ids)) && |ids| < |plan|
    ensures At(Step(s, Add(x)), x, kind, plan, Adding(ids + [s.db.nextAction]))
  {
    assert Step(s, Add(x)) == Added(s, x);
  }

  lemma StartAt(s: System, x: nat, kind: Kind, plan: seq<Spec>, ids: seq<nat>)
    requires At(s, x, kind, plan, Adding(ids)) && |ids| == |plan|
    ensures At(Step(s, Start(x)), x, kind, plan, Executing(ids, 0))
  {
    assert Step(s, Start(x)) == Started(s, x);
    assert Ids(Adding(ids)) == ids;
  }

  lemma StartOneAt(s: System, x: nat, kind: Kind, plan: seq<Spec>, ids: seq<nat>, k: nat)
    requires k < |ids| == |plan| && At(s, x, kind, plan, Executing(ids, k))
    ensures At(Step(s, StartOne(x)), x, kind, plan, Running(ids, k))
  {
    assert Step(s, StartOne(x)) == ActionStarted(s, x);
    assert ids[k] in Ids(Executing(ids, k));
  }

  lemma ItemAt(s: System, x: nat, kind: Kind, plan: seq<Spec>, ids: seq<nat>, k: nat)
    requires k < |ids| == |plan| && At(s, x, kind, plan, Running(ids, k))
    ensures At(Step(s, Item(x)), x, kind, plan, Running(ids, k))
  {
    assert Step(s, Item(x)) == ItemSaved(s, x);
  }

  lemma SucceedAt(s: System, x: nat, kind: Kind, plan: seq<Spec>, ids: seq<nat>, k: nat)
    requires k < |ids| == |plan| && At(s, x, kind, plan, Running(ids, k))
    ensures At(Step(s, Succeed(x)), x, kind, plan, Executing(ids, k + 1))
  {
    assert Step(s, Succeed(x)) == SuccessSaved(s, x);
    assert Ids(Running(ids, k)) == ids;
  }

  lemma FailAt(s: System, x: nat, kind: Kind, plan: seq<Spec>, ids: seq<nat>, k: nat)
    requires k < |ids| == |plan| && At(s, x, kind, plan, Running(ids, k))
    ensures At(Step(s, Raise(x)), x, kind, plan, Failing(ids, k))
  {
    assert Ids(Running(ids, k)) == ids;
  }

  lemma StoreAt(s: System, x: nat, kind: Kind, plan: seq<Spec>, ids: seq<nat>, k: nat)
    requires k < |ids| == |plan| && At(s, x, kind, plan, Failing(ids, k))
    ensures At(Step(s, StoreFailure(x)), x, kind, plan, Stored(ids, k, kind.SiteDeletion?))
  {
    assert Step(s, StoreFailure(x)) == FailureSaved(s, x);
    assert Ids(Failing(ids, k)) == ids;
  }

  lemma OneMore(events: seq<Event>, more: seq<Event>, x: nat, e: Event) returns (longer: seq<Event>)
    requires OnlyTask(more, x) && Runs(e, x)
    ensures OnlyTask(longer, x) && After(events + longer) == Step(After(events + more), e)
  {
    longer := more + [e];
    assert events + longer == (events + more) + [e];
    AfterSnoc(events + more, e);
  }

  /** The with block: one row for each declared action. */
  lemma {:induction false} AddAll(events: seq<Event>, x: nat, kind: Kind, plan: seq<Spec>, n: nat)
    returns (more: seq<Event>, ids: seq<nat>)
    requires At(After(events), x, kind, plan, Queued) && n <= |plan|
    ensures OnlyTask(more, x) && |ids| == n && At(After(events + more), x, kind, plan, Adding(ids))
  {
    if n == 0 {
      assert events + [] == events;
      FetchAt(After(events), x, kind, plan);
      more := OneMore(events, [], x, Fetch(x));
      ids := [];
    } else {
      more, ids := AddAll(events, x, kind, plan, n - 1);
      var s := After(events + more);
      AddAt(s, x, kind, plan, ids);
      more := OneMore(events, more, x, Add(x));
      ids := ids + [s.db.nextAction];
    }
  }

  /** One callback: its items, up to the point where it returns or raises. */
  lemma {:induction false} RunItems(
    events: seq<Event>, more: seq<Event>, x: nat, kind: Kind, plan: seq<Spec>, ids: seq<nat>, k: nat, n: nat)
    returns (longer: seq<Event>)
    requires k < |ids| == |plan| && OnlyTask(more, x)
    requires At(After(events + more), x, kind, plan, Executing(ids, k))
    ensures OnlyTask(longer, x) && At(After(events + longer), x, kind, plan, Running(ids, k))
    decreases n
  {
    if n == 0 {
      StartOneAt(After(events + more), x, kind, plan, ids, k);
      longer := OneMore(events, more, x, StartOne(x));
    } else {
      longer := RunItems(events, more, x, kind, plan, ids, k, n - 1);
      ItemAt(After(events + longer), x, kind, plan, ids, k);
      longer := OneMore(events, longer, x, Item(x));
    }
  }

  lemma RunOne(events: seq<Event>, more: seq<Event>, x: nat, kind: Kind, plan: seq<Spec>, ids: seq<nat>, k: nat, items: nat)
    returns (longer: seq<Event>)
    requires k < |ids| == |plan| && OnlyTask(more, x)
    requires At(After(events + more), x, kind, plan, Executing(ids, k))
    ensures OnlyTask(longer, x) && At(After(events + longer), x, kind, plan, Executing(ids, k + 1))
  {
    longer := RunItems(events, more, x, kind, plan, ids, k, items);
    SucceedAt(After(events + longer), x, kind, plan, ids, k);
    longer := OneMore(events, longer, x, Succeed(x));
  }

  lemma RunNone(events: seq<Event>, x: nat, kind: Kind, plan: seq<Spec>) returns (more: seq<Event>, ids: seq<nat>)
    requires At(After(events), x, kind, plan, Queued)
    ensures OnlyTask(more, x) && |ids| == |plan| && At(After(events + more), x, kind, plan, Executing(ids, 0))
  {
    more, ids := AddAll(events, x, kind, plan, |plan|);
    StartAt(After(events + more), x, kind, plan, ids);
    more := OneMore(events, more, x, Start(x));
  }

  /** execute_operation() up to its k-th action, when the actions before it return. */
  lemma {:induction false} RunActions(events: seq<Event>, x: nat, kind: Kind, plan: seq<Spec>, cs: seq<Callback>, k: nat)
    returns (more: seq<Event>, ids: seq<nat>)
    requires At(After(events), x, kind, plan, Queued) && |cs| == |plan| && k <= Returned(cs)
    ensures OnlyTask(more, x) && |ids| == |plan| && At(After(events + more), x, kind, plan, Executing(ids, k))
    decreases k
  {
    if k == 0 {
      more, ids := RunNone(events, x, kind, plan);
    } else {
      more, ids := RunActions(events, x, kind, plan, cs, k - 1);
      more := RunOne(events, more, x, kind, plan, ids, k - 1, cs[k - 1].items);
    }
  }

  /** The same up to the point where the task is through. */
  lemma RunThrough(events: seq<Event>, x: nat, kind: Kind, plan: seq<Spec>, cs: seq<Callback>)
    returns (more: seq<Event>, ids: seq<nat>, p: Phase)
    requires At(After(events), x, kind, plan, Queued) && |cs| == |plan|
    ensures OnlyTask(more, x) && |ids| == |plan| && At(After(events + more), x, kind, plan, p)
    ensures
      var k := Returned(cs);
      p == if k < |cs| then Stored(ids, k, kind.SiteDeletion?) else Executing(ids, k)
  {
    var k := Returned(cs);
    more, ids := RunActions(events, x, kind, plan, cs, k);
    p := Executing(ids, k);
    if k < |cs| {
      more := RunItems(events, more, x, kind, plan, ids, k, cs[k].items);
      FailAt(After(events + more), x, kind, plan, ids, k);
      more := OneMore(events, more, x, Raise(x));
      StoreAt(After(events + more), x, kind, plan, ids, k);
      more := OneMore(events, more, x, StoreFailure(x));
      p := Stored(ids, k, kind.SiteDeletion?);
    }
  }

  /** A task that nothing disturbs runs its actions as ExecuteOperation() does: for all callbacks, its
      own events alone lead to the point where the first action that raises is stored as failed, or
      where all have returned, with every row there as the outcome says. */
  lemma AloneLikeWrapper(events: seq<Event>, x: nat, cs: seq<Callback>)
    returns (more: seq<Event>, ids: seq<nat>)
    requires x in After(events).tasks && x in After(events).db.ops && After(events).tasks[x].phase.Queued?
    requires |cs| == |After(events).tasks[x].plan|
    ensures OnlyTask(more, x)
    ensures
      var plan := After(events).tasks[x].plan;
      var s := After(events + more);
      && x in s.tasks && s.tasks[x].plan == plan && Through(s.tasks[x], Returned(cs))
      && s.tasks[x].phase.ids == ids && |ids| == |plan|
      && (s.tasks[x].phase.Stored? <==> Returned(cs) < |cs|)
      && x in s.db.ops && s.db.ops[x].started
      && forall i :: 0 <= i < |ids| ==>
           ids[i] in s.db.actions && s.db.actions[ids[i]] == Outcome(Planned(x, plan[i]), i, Returned(cs))
  {
    var kind, plan, p := After(events).tasks[x].kind, After(events).tasks[x].plan, Queued;
    more, ids, p := RunThrough(events, x, kind, plan, cs);
    assert Ids(p) == ids;
    forall i | 0 <= i < |ids|
      ensures ids[i] in After(events + more).db.actions
      ensures After(events + more).db.actions[ids[i]] == Outcome(Planned(x, plan[i]), i, Returned(cs))
    {
      assert ids[i] in Ids(p);
      PlaceIsOutcome(events + more, x, i, Returned(cs));
    }
  }

  /** A task's ids are all different, and rows under them are its own. */
  lemma IdsAreOwn(events: seq<Event>, x: nat, i: nat)
    requires x in After(events).tasks && i < |Ids(After(events).tasks[x].phase)|
    ensures
      var s, ids := After(events), Ids(After(events).tasks[x].phase);
      && (ids[i] in s.db.actions ==> s.db.actions[ids[i]].op == x)
      && forall j :: 0 <= j < |ids| && ids[j] == ids[i] ==> j == i
  {
    Reachable(events);
    var s := After(events);
    var a := Ids(s.tasks[x].phase)[i];
    assert TaskOk(s, x);
    if a in s.db.actions {
      assert ActionOk(s, a);
    }
  }

  lemma PlaceIsOutcome(events: seq<Event>, x: nat, i: nat, k: nat)
    requires x in After(events).tasks && Through(After(events).tasks[x], k)
    requires i < |After(events).tasks[x].phase.ids| == |After(events).tasks[x].plan|
    requires After(events).tasks[x].phase.ids[i] in After(events).db.actions
    ensures
      var s := After(events);
      s.db.actions[s.tasks[x].phase.ids[i]] == Outcome(Planned(x, s.tasks[x].plan[i]), i, k)
  {
    IdsAreOwn(events, x, i);
    var j := RowsAreOutcome(events, After(events).tasks[x].phase.ids[i], k);
  }

  // ---- the exact condition for the guard's comment ----

  lemma Created(s: System, plan: seq<Spec>)
    requires 0 in s.db.sites && s.db.ops == map[] && s.views == map[] && s.db.nextOp == 0
    ensures
      var s' := Step(s, ViewFindsNone(0, 0));
      s' == s.(views := map[0 := Free(0)]) && At(Step(s', ViewCreates(0, Ordinary, plan)), 0, Ordinary, plan, Queued)
  {
    var s' := Step(s, ViewFindsNone(0, 0));
    assert !HasOperation(s.db, 0);
    assert s' == s.(views := map[0 := Free(0)]);
    assert CreateOperation(s'.db, 0).Some?;
    assert Step(s', ViewCreates(0, Ordinary, plan)) == CreatedBy(s', 0, Ordinary, plan);
  }

  lemma FirstOperation(plan: seq<Spec>) returns (events: seq<Event>)
    ensures At(After(events), 0, Ordinary, plan, Queued)
  {
    var site, looked := [NewSite(0)], [NewSite(0)] + [ViewFindsNone(0, 0)];
    AfterSnoc([], NewSite(0));
    assert [] + [NewSite(0)] == site;
    var s := After(site);
    assert s == Initial().(db := Initial().db.(sites := {0}));
    AfterSnoc(site, ViewFindsNone(0, 0));
    Created(s, plan);
    AfterSnoc(looked, ViewCreates(0, Ordinary, plan));
    events := looked + [ViewCreates(0, Ordinary, plan)];
  }

  /** The callbacks of a run in which action k is the first to raise. */
  function RaisesAt(n: nat, k: nat): (cs: seq<Callback>)
    requires k < n
    ensures |cs| == n && Returned(cs) == k
  {
    if k == 0 then [Callback(0, false)] + seq(n - 1, i => Callback(0, true))
    else
      var rest := RaisesAt(n - 1, k - 1);
      assert ([Callback(0, true)] + rest)[1..] == rest;
      [Callback(0, true)] + rest
  }

  /** For any declared action there is a run in which it is the one that fails. */
  lemma FailingRun(plan: seq<Spec>, k: nat) returns (events: seq<Event>, x: nat)
    requires k < |plan|
    ensures
      var s := After(events);
      && x in s.tasks && s.tasks[x].plan == plan && HasFailed(s.db, x)
      && s.tasks[x].phase.Stored? && s.tasks[x].phase.k == k
  {
    x := 0;
    var first := FirstOperation(plan);
    var more, ids := AloneLikeWrapper(first, x, RaisesAt(|plan|, k));
    events := first + more;
    assert After(events).db.actions[ids[k]].result.Failed?;
  }

  /** Every action that is declared recoverable has the slug. */
  predicate OnlyRecoverable(plan: seq<Spec>, slug: string) {
    forall k :: 0 <= k < |plan| && plan[k].recoverable ==> plan[k].slug == slug
  }

  /** The comment holds for operations with these actions just if every action that is declared
      recoverable has the slug that the guard names. */
  lemma GuardMeansSlugIff(plan: seq<Spec>, slug: string)
    ensures GuardMeansSlug(plan, slug) <==> OnlyRecoverable(plan, slug)
  {
    if OnlyRecoverable(plan, slug) {
      forall events: seq<Event>, x: nat |
        x in After(events).tasks && After(events).tasks[x].plan == plan && OverrideGuard(After(events).db, x, slug)
        ensures OnlySlugFailed(After(events).db, x, slug)
      {
        var k := GuardAdmits(events, x, slug);
      }
    } else {
      var k :| 0 <= k < |plan| && plan[k].recoverable && plan[k].slug != slug;
      OtherSlugAdmitted(plan, slug, k);
    }
  }

  lemma OtherSlugAdmitted(plan: seq<Spec>, slug: string, k: nat)
    requires k < |plan| && plan[k].recoverable && plan[k].slug != slug
    ensures !GuardMeansSlug(plan, slug)
  {
    var events, x := FailingRun(plan, k);
    var a, i := OneFailure(events, x);
    GuardIgnoresSlug(After(events).db, x, slug);
    assert OverrideGuard(After(events).db, x, slug);
    assert !OnlySlugFailed(After(events).db, x, slug);
  }

  // ---- the operations there are ----

  const BUILD := "build_docker_image"
  const CERTBOT := "update_balancer_certbot"

  /** The actions of edit_site_names_task, of update_image_task and of fix_site_task, in production and
      for a dynamic site without a database, whose run.sh is left as it is. */
  const EDIT_SITE_NAMES := [
    Spec("find_pingable_appservers", false), Spec("change_site_name", false), Spec("change_site_domains", false),
    Spec("update_appserver_nginx_config", false), Spec(CERTBOT, true), Spec("update_balancer_nginx_config", false)]

  const UPDATE_IMAGE := [
    Spec("find_pingable_appservers", false), Spec("update_image_object", false), Spec(BUILD, true),
    Spec("update_docker_service", false), Spec("restart_docker_service", false)]

  const FIX_SITE := [
    Spec("find_pingable_appservers", false), Spec(BUILD, true), Spec("ensure_site_directories_exist", false),
    Spec("update_docker_service", false), Spec("update_appserver_nginx_config", false), Spec(CERTBOT, true),
    Spec("update_balancer_nginx_config", false)]

  lemma SlugsDiffer()
    ensures BUILD != CERTBOT
  {
    assert BUILD[0] != CERTBOT[0];
  }

  lemma PlansRecoverable()
    ensures OnlyRecoverable(UPDATE_IMAGE, BUILD) && OnlyRecoverable(EDIT_SITE_NAMES, CERTBOT)
    ensures EDIT_SITE_NAMES[4] == Spec(CERTBOT, true) && UPDATE_IMAGE[2] == Spec(BUILD, true)
    ensures FIX_SITE[5] == Spec(CERTBOT, true) && FIX_SITE[1] == Spec(BUILD, true)
  {
  }

  /** The image view's comment is right about image updates only, the names view's about name changes
      only; either view overrides the other's operation, and repairs, after some other failure. */
  lemma GuardAdmitsOtherSlug()
    ensures GuardMeansSlug(UPDATE_IMAGE, BUILD) && !GuardMeansSlug(EDIT_SITE_NAMES, BUILD)
    ensures GuardMeansSlug(EDIT_SITE_NAMES, CERTBOT) && !GuardMeansSlug(UPDATE_IMAGE, CERTBOT)
    ensures !GuardMeansSlug(FIX_SITE, BUILD) && !GuardMeansSlug(FIX_SITE, CERTBOT)
  {
    SlugsDiffer();
    PlansRecoverable();
    GuardMeansSlugIff(UPDATE_IMAGE, BUILD);
    GuardMeansSlugIff(EDIT_SITE_NAMES, CERTBOT);
    OtherSlugAdmitted(EDIT_SITE_NAMES, BUILD, 4);
    OtherSlugAdmitted(UPDATE_IMAGE, CERTBOT, 2);
    OtherSlugAdmitted(FIX_SITE, BUILD, 5);
    OtherSlugAdmitted(FIX_SITE, CERTBOT, 1);
  }
}
