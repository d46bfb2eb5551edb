/** Every event of the operation protocol keeps its invariant. */
module OperationInvariant {
  import opened Options
  import opened OperationTable
  import opened OperationProtocol

  // ---- statements keep the tables consistent ----

  lemma CreateOperationKeeps(db: Tables, site: nat)
    requires Consistent(db) && CreateOperation(db, site).Some?
    ensures Consistent(CreateOperation(db, site).value)
  {
  }

  lemma CreateActionKeeps(db: Tables, op: nat, slug: string, recoverable: bool)
    requires Consistent(db) && CreateAction(db, op, slug, recoverable).Some?
    ensures Consistent(CreateAction(db, op, slug, recoverable).value)
  {
  }

  lemma StartKeeps(db: Tables, id: nat)
    requires Consistent(db)
    ensures StartOperation(db, id).Some? ==> Consistent(StartOperation(db, id).value)
    ensures StartAction(db, id).Some? ==> Consistent(StartAction(db, id).value)
  {
  }

  lemma SaveActionKeeps(db: Tables, a: nat, row: Action)
    requires Consistent(db) && a < db.nextAction && SaveAction(db, a, row).Some?
    ensures Consistent(SaveAction(db, a, row).value)
  {
  }

  lemma DeleteKeeps(db: Tables, id: nat, hasDomains: bool)
    requires Consistent(db)
    ensures Consistent(DeleteActions(db, id))
    ensures DeleteOperation(db, id).Some? ==> Consistent(DeleteOperation(db, id).value)
    ensures DeleteSite(db, id, hasDomains).Some? ==> Consistent(DeleteSite(db, id, hasDomains).value)
  {
  }

  // ---- what one task can touch ----

  /** From s to s', only task x moved, and it touched no row of another operation. */
  ghost predicate Framed(s: System, s': System, x: nat) {
    && x in s.tasks && s'.tasks.Keys == s.tasks.Keys && s'.views == s.views
    && (forall y :: y in s.tasks && y != x ==> s'.tasks[y] == s.tasks[y])
    && s'.tasks[x].site == s.tasks[x].site
    && (s.tasks[x].phase.Stored? ==> s'.tasks[x].phase.Stored?)
    && (forall o :: o in s'.db.ops ==> o in s.db.ops && s'.db.ops[o].site == s.db.ops[o].site)
    && s'.db.nextOp == s.db.nextOp && s'.db.nextAction >= s.db.nextAction
    && (forall a :: a in s'.db.actions && s'.db.actions[a].op != x ==>
          a in s.db.actions && s'.db.actions[a] == s.db.actions[a])
    && (forall a :: a in s.owner ==> a in s'.owner && s'.owner[a] == s.owner[a])
    && (forall a :: a in s'.owner ==> a < s'.db.nextAction)
  }

  lemma FrameTasks(s: System, s': System, x: nat, y: nat)
    requires Inv(s) && Framed(s, s', x) && y in s'.tasks && y != x
    ensures TaskOk(s', y)
  {
    assert TaskOk(s, y);
  }

  lemma FrameRows(s: System, s': System, x: nat, a: nat)
    requires Inv(s) && Framed(s, s', x) && a in s'.db.actions && s'.db.actions[a].op != x
    ensures ActionOk(s', a)
  {
    assert ActionOk(s, a);
  }

  lemma FrameViews(s: System, s': System, x: nat, v: nat)
    requires Inv(s) && Framed(s, s', x) && v in s'.views
    ensures ViewOk(s', v)
  {
    assert ViewOk(s, v);
  }

  lemma FrameTables(s: System, s': System, x: nat)
    requires TasksAndOperations(s) && Framed(s, s', x)
    ensures TasksAndOperations(s')
  {
  }

  lemma FrameKeeps(s: System, s': System, x: nat)
    requires Inv(s) && Framed(s, s', x)
    requires Consistent(s'.db) && TaskOk(s', x)
    requires RowsOk(s', x)
    ensures Inv(s')
  {
    FrameTables(s, s', x);
    forall y | y in s'.tasks ensures TaskOk(s', y) {
      if y != x {
        FrameTasks(s, s', x, y);
      }
    }
    forall a | a in s'.db.actions ensures ActionOk(s', a) {
      if s'.db.actions[a].op != x {
        FrameRows(s, s', x, a);
      }
    }
    forall v | v in s'.views ensures ViewOk(s', v) {
      FrameViews(s, s', x, v);
    }
  }

  /** The place of a task's action row. */
  lemma PlaceOf(s: System, a: nat) returns (j: nat)
    requires Inv(s) && a in s.db.actions
    ensures
      var x := s.db.actions[a].op;
      && x in s.tasks && j < |Ids(s.tasks[x].phase)| && Ids(s.tasks[x].phase)[j] == a
      && RowFits(s.db.actions[a], s.tasks[x].phase, j)
  {
    assert ActionOk(s, a);
    var p := s.tasks[s.db.actions[a].op].phase;
    j :| 0 <= j < |Ids(p)| && Ids(p)[j] == a && RowFits(s.db.actions[a], p, j);
  }

  lemma Placed(a: nat, row: Action, p: Phase, j: nat)
    requires j < |Ids(p)| && Ids(p)[j] == a && RowFits(row, p, j)
    ensures Fits(a, row, p)
  {
  }

  ghost predicate Untouched(s: System, s': System, x: nat, k: nat, a: nat)
    requires x in s.tasks
  {
    && a in s.db.actions && s.db.actions[a].op == x
    && a in s'.db.actions && s'.db.actions[a] == s.db.actions[a]
    && !(k < |Ids(s.tasks[x].phase)| && Ids(s.tasks[x].phase)[k] == a)
  }

  ghost predicate RowsOk(s: System, x: nat) {
    forall a :: a in s.db.actions && s.db.actions[a].op == x ==> ActionOk(s, a)
  }

  /** Rows that the task did not write fit its new phase when the phases agree about them. */
  lemma UntouchedRows(s: System, s': System, x: nat, k: nat)
    requires Inv(s) && x in s.tasks && x in s'.tasks
    requires Ids(s.tasks[x].phase) <= Ids(s'.tasks[x].phase)
    requires forall r: Action, j: nat :: j != k && j < |Ids(s.tasks[x].phase)| && RowFits(r, s.tasks[x].phase, j) ==>
               RowFits(r, s'.tasks[x].phase, j)
    requires forall a :: a in s.owner ==> a in s'.owner && s'.owner[a] == s.owner[a]
    ensures forall a :: Untouched(s, s', x, k, a) ==> ActionOk(s', a)
  {
    forall a | Untouched(s, s', x, k, a) ensures ActionOk(s', a) {
      assert ActionOk(s, a);
      var j := PlaceOf(s, a);
      Placed(a, s.db.actions[a], s'.tasks[x].phase, j);
    }
  }

  /** A task that moves on without a change to the tables. */
  lemma PhaseKeeps(s: System, x: nat, p: Phase)
    requires Inv(s) && x in s.tasks
    requires s.tasks[x].phase.Stored? ==> p.Stored?
    requires TaskOk(Phased(s, x, p), x)
    requires forall a :: a in s.db.actions && s.db.actions[a].op == x ==> ActionOk(Phased(s, x, p), a)
    ensures Inv(Phased(s, x, p))
  {
    assert forall a :: a in s.db.actions ==> ActionOk(s, a);
    FrameKeeps(s, Phased(s, x, p), x);
  }

  /** Without its operation's row a task has no action rows. */
  lemma NoRows(s: System, x: nat)
    requires Inv(s) && (x !in s.db.ops || (x in s.tasks && Ids(s.tasks[x].phase) == []))
    ensures forall a :: a in s.db.actions ==> s.db.actions[a].op != x
  {
    forall a | a in s.db.actions ensures s.db.actions[a].op != x {
      assert ActionOk(s, a);
    }
  }

  // ---- task events ----

  lemma BeforeRowsKeep(s: System, e: Event)
    requires Inv(s) && Enabled(s, e)
    requires e.Fetch? || e.FindNoDatabase? || e.EarlyFetch? || e.EarlyFetchNone?
    ensures Inv(Step(s, e))
  {
    NoRows(s, e.x);
    assert TaskOk(s, e.x);
    if Step(s, e) != s {
      PhaseKeeps(s, e.x, Step(s, e).tasks[e.x].phase);
    }
  }

  lemma EarlyDeletedFramed(s: System, x: nat)
    requires TasksAndOperations(s) && x in s.tasks && s.tasks[x].phase.EarlyHolding? && TaskOk(s, x)
    requires DeleteOperation(s.db, s.tasks[x].phase.op).Some?
    requires forall a :: a in s.db.actions ==> s.db.actions[a].op != x
    ensures var s' := EarlyDeleted(s, x); Framed(s, s', x) && TaskOk(s', x) && RowsOk(s', x)
  {
  }

  lemma EarlyRefusedKeeps(s: System, x: nat)
    requires Inv(s) && x in s.tasks && s.tasks[x].phase.EarlyHolding? && TaskOk(s, x)
    requires HasActions(s.db, s.tasks[x].phase.op)
    requires forall a :: a in s.db.actions ==> s.db.actions[a].op != x
    ensures Inv(Phased(s, x, Crashed))
  {
    HoldingAnother(s, x);
    CrashedOk(s, x);
    RowlessKeeps(s, x, Crashed);
  }

  lemma CrashedOk(s: System, x: nat)
    requires x in s.tasks && x !in s.db.ops
    ensures TaskOk(Phased(s, x, Crashed), x)
  {
  }

  lemma EarlyDeletedKeeps(s: System, x: nat)
    requires Inv(s) && x in s.tasks && s.tasks[x].phase.EarlyHolding?
    ensures Inv(EarlyDeleted(s, x))
  {
    NoRows(s, x);
    assert TaskOk(s, x);
    if DeleteOperation(s.db, s.tasks[x].phase.op).None? {
      EarlyRefusedKeeps(s, x);
    } else {
      DeleteKeeps(s.db, s.tasks[x].phase.op, false);
      EarlyDeletedFramed(s, x);
      FrameKeeps(s, EarlyDeleted(s, x), x);
    }
  }

  /** An operation with actions, held by a task without, is not the task's own. */
  lemma HoldingAnother(s: System, x: nat)
    requires Consistent(s.db) && x in s.tasks && s.tasks[x].phase.EarlyHolding? && TaskOk(s, x)
    requires TasksAndOperations(s)
    requires HasActions(s.db, s.tasks[x].phase.op)
    requires forall a :: a in s.db.actions ==> s.db.actions[a].op != x
    ensures x !in s.db.ops
  {
    assert s.tasks[x].phase.op in s.db.ops;
  }

  lemma AddedFramed(s: System, x: nat)
    requires TasksAndOperations(s) && x in s.tasks && x in s.db.ops
    requires s.tasks[x].phase.Adding? && |s.tasks[x].phase.ids| < |s.tasks[x].plan| && TaskOk(s, x)
    requires forall a :: a in s.db.actions ==> a < s.db.nextAction
    ensures Framed(s, Added(s, x), x) && TaskOk(Added(s, x), x)
  {
    var ids := s.tasks[x].phase.ids;
    assert forall i :: 0 <= i < |ids| ==> ids[i] < s.db.nextAction;
  }

  lemma AddedRows(s: System, x: nat)
    requires Inv(s) && x in s.tasks && x in s.db.ops
    requires s.tasks[x].phase.Adding? && |s.tasks[x].phase.ids| < |s.tasks[x].plan|
    ensures RowsOk(Added(s, x), x)
  {
    var s', ids := Added(s, x), s.tasks[x].phase.ids;
    forall a | a in s'.db.actions && s'.db.actions[a].op == x ensures ActionOk(s', a) {
      if a == s.db.nextAction {
        Placed(a, s'.db.actions[a], s'.tasks[x].phase, |ids|);
      } else {
        assert ActionOk(s, a);
        var j := PlaceOf(s, a);
        Placed(a, s'.db.actions[a], s'.tasks[x].phase, j);
      }
    }
  }

  lemma AddedKeeps(s: System, x: nat)
    requires Inv(s) && x in s.tasks && s.tasks[x].phase.Adding? && |s.tasks[x].phase.ids| < |s.tasks[x].plan|
    ensures Inv(Added(s, x))
  {
    assert TaskOk(s, x);
    if x !in s.db.ops {
      RowlessKeeps(s, x, Crashed);
    } else {
      var spec := s.tasks[x].plan[|s.tasks[x].phase.ids|];
      CreateActionKeeps(s.db, x, spec.slug, spec.recoverable);
      AddedFramed(s, x);
      AddedRows(s, x);
      FrameKeeps(s, Added(s, x), x);
    }
  }

  lemma StartedKeeps(s: System, x: nat)
    requires Inv(s) && x in s.tasks && s.tasks[x].phase.Adding? && |s.tasks[x].phase.ids| == |s.tasks[x].plan|
    ensures Inv(Started(s, x))
  {
    var s' := Started(s, x);
    assert TaskOk(s, x);
    StartKeeps(s.db, x);
    if x !in s.db.ops {
      RowlessKeeps(s, x, Crashed);
    } else {
      StartedFramed(s, x);
      UntouchedRows(s, s', x, |s.tasks[x].phase.ids|);
      FrameKeeps(s, s', x);
    }
  }

  lemma StartedFramed(s: System, x: nat)
    requires TasksAndOperations(s) && x in s.tasks && x in s.db.ops && s.tasks[x].phase.Adding?
    requires TaskOk(s, x) && |s.tasks[x].phase.ids| == |s.tasks[x].plan|
    ensures Framed(s, Started(s, x), x) && TaskOk(Started(s, x), x)
  {
  }

  /** An exception while the operation's row is gone: there is nothing left to fit. */
  lemma RowlessKeeps(s: System, x: nat, p: Phase)
    requires Inv(s) && x in s.tasks && x !in s.db.ops && !s.tasks[x].phase.Stored?
    requires TaskOk(Phased(s, x, p), x)
    ensures Inv(Phased(s, x, p))
  {
    NoRows(s, x);
    PhaseKeeps(s, x, p);
  }

  /** Writing the row of the current action, whether it is still there or not. */
  lemma WriteKeeps(s: System, s': System, x: nat, row: Action)
    requires Inv(s) && AtAction(s, x) && Written(s, s', x, row) && TaskOk(s', x)
    ensures Inv(s')
  {
    var ids, k := s.tasks[x].phase.ids, s.tasks[x].phase.k;
    assert TaskOk(s, x);
    assert ids[k] in s.owner && ids[k] < s.db.nextAction;
    SaveActionKeeps(s.db, ids[k], row);
    WrittenFramed(s, s', x, row);
    UntouchedRows(s, s', x, k);
    WrittenRows(s, s', x, row);
    FrameKeeps(s, s', x);
  }

  /** From s to s', task x wrote the row of its current action and moved on. */
  ghost predicate Written(s: System, s': System, x: nat, row: Action)
    requires AtAction(s, x)
  {
    var p := s.tasks[x].phase;
    && x in s.db.ops && row.op == x
    && s'.db == s.db.(actions := s.db.actions[p.ids[p.k] := row])
    && s'.views == s.views && s'.owner == s.owner && x in s'.tasks
    && s'.tasks == s.tasks[x := s'.tasks[x]] && s'.tasks[x].site == s.tasks[x].site
    && Ids(s'.tasks[x].phase) == p.ids
    && RowFits(row, s'.tasks[x].phase, p.k)
    && (forall r: Action, j: nat :: j != p.k && j < |p.ids| && RowFits(r, p, j) ==> RowFits(r, s'.tasks[x].phase, j))
  }

  lemma WrittenFramed(s: System, s': System, x: nat, row: Action)
    requires TasksAndOperations(s) && AtAction(s, x) && Written(s, s', x, row)
    ensures Framed(s, s', x)
  {
  }

  lemma WrittenRows(s: System, s': System, x: nat, row: Action)
    requires AtAction(s, x) && TaskOk(s, x) && Written(s, s', x, row)
    requires forall a :: Untouched(s, s', x, s.tasks[x].phase.k, a) ==> ActionOk(s', a)
    ensures RowsOk(s', x)
  {
    var ids, k := s.tasks[x].phase.ids, s.tasks[x].phase.k;
    Placed(ids[k], row, s'.tasks[x].phase, k);
    forall a | a in s'.db.actions && s'.db.actions[a].op == x ensures ActionOk(s', a) {
      if a != ids[k] {
        assert Untouched(s, s', x, k, a);
      }
    }
  }

  lemma ActionStartedKeeps(s: System, x: nat)
    requires Inv(s) && AtAction(s, x) && s.tasks[x].phase.Executing?
    ensures Inv(ActionStarted(s, x))
  {
    var p := s.tasks[x].phase;
    var a := p.ids[p.k];
    assert TaskOk(s, x);
    if a !in s.db.actions {
      ActionMissingKeeps(s, x);
    } else {
      assert ActionOk(s, a);
      var j := PlaceOf(s, a);
      ActionStartedWritten(s, x, a);
      WriteKeeps(s, ActionStarted(s, x), x, s.db.actions[a].(started := true));
    }
  }

  lemma ActionStartedWritten(s: System, x: nat, a: nat)
    requires AtAction(s, x) && s.tasks[x].phase.Executing? && TaskOk(s, x) && x in s.db.ops
    requires a == s.tasks[x].phase.ids[s.tasks[x].phase.k] && a in s.db.actions && s.db.actions[a].op == x
    requires RowFits(s.db.actions[a], s.tasks[x].phase, s.tasks[x].phase.k)
    ensures
      var s' := ActionStarted(s, x);
      Written(s, s', x, s.db.actions[a].(started := true)) && TaskOk(s', x)
  {
  }

  /** The current action's row is gone, so starting it raises. */
  lemma ActionMissingKeeps(s: System, x: nat)
    requires Inv(s) && AtAction(s, x) && s.tasks[x].phase.Executing? && TaskOk(s, x)
    requires s.tasks[x].phase.ids[s.tasks[x].phase.k] !in s.db.actions
    ensures
      var p := s.tasks[x].phase;
      Inv(Phased(s, x, Failing(p.ids, p.k)))
  {
    var p := s.tasks[x].phase;
    UntouchedRows(s, Phased(s, x, Failing(p.ids, p.k)), x, p.k);
    PhaseKeeps(s, x, Failing(p.ids, p.k));
  }

  lemma ItemSavedWritten(s: System, x: nat)
    requires AtAction(s, x) && s.tasks[x].phase.Running? && TaskOk(s, x) && x in s.db.ops
    ensures
      var s' := ItemSaved(s, x);
      Written(s, s', x, Row(s, x, s.tasks[x].phase.k, Unfinished)) && TaskOk(s', x)
  {
  }

  lemma ItemSavedKeeps(s: System, x: nat)
    requires Inv(s) && AtAction(s, x) && s.tasks[x].phase.Running?
    ensures Inv(ItemSaved(s, x))
  {
    assert TaskOk(s, x);
    var p := s.tasks[x].phase;
    if x !in s.db.ops {
      RowlessKeeps(s, x, Failing(p.ids, p.k));
    } else {
      ItemSavedWritten(s, x);
      WriteKeeps(s, ItemSaved(s, x), x, Row(s, x, p.k, Unfinished));
    }
  }

  lemma SuccessSavedWritten(s: System, x: nat)
    requires AtAction(s, x) && s.tasks[x].phase.Running? && TaskOk(s, x) && x in s.db.ops
    ensures
      var s' := SuccessSaved(s, x);
      Written(s, s', x, Row(s, x, s.tasks[x].phase.k, Succeeded)) && TaskOk(s', x)
  {
  }

  lemma SuccessSavedKeeps(s: System, x: nat)
    requires Inv(s) && AtAction(s, x) && s.tasks[x].phase.Running?
    ensures Inv(SuccessSaved(s, x))
  {
    assert TaskOk(s, x);
    var p := s.tasks[x].phase;
    if x !in s.db.ops {
      RowlessKeeps(s, x, Failing(p.ids, p.k));
    } else {
      SuccessSavedWritten(s, x);
      WriteKeeps(s, SuccessSaved(s, x), x, Row(s, x, p.k, Succeeded));
    }
  }

  lemma FailureSavedKeeps(s: System, x: nat)
    requires Inv(s) && AtAction(s, x) && s.tasks[x].phase.Failing?
    ensures Inv(FailureSaved(s, x))
  {
    assert TaskOk(s, x);
    var p := s.tasks[x].phase;
    if x !in s.db.ops {
      RowlessKeeps(s, x, Crashed);
    } else {
      WriteKeeps(s, FailureSaved(s, x), x, Row(s, x, p.k, Failed));
    }
  }

  lemma RaisedKeeps(s: System, x: nat)
    requires Inv(s) && AtAction(s, x) && s.tasks[x].phase.Running?
    ensures Inv(Phased(s, x, Failing(s.tasks[x].phase.ids, s.tasks[x].phase.k)))
  {
    var p := s.tasks[x].phase;
    assert TaskOk(s, x);
    UntouchedRows(s, Phased(s, x, Failing(p.ids, p.k)), x, |p.ids|);
    PhaseKeeps(s, x, Failing(p.ids, p.k));
  }

  lemma ActionsClearedFramed(s: System, x: nat)
    requires TasksAndOperations(s) && x in s.tasks && s.tasks[x].phase.Executing?
    ensures Framed(s, Phased(s.(db := DeleteActions(s.db, x)), x, Clearing), x)
  {
  }

  lemma ActionsClearedTask(s: System, x: nat)
    requires x in s.tasks && s.tasks[x].phase.Executing? && s.tasks[x].phase.k == |s.tasks[x].phase.ids| && TaskOk(s, x)
    ensures
      var s' := Phased(s.(db := DeleteActions(s.db, x)), x, Clearing);
      TaskOk(s', x) && RowsOk(s', x)
  {
  }

  lemma ActionsClearedKeeps(s: System, x: nat)
    requires Inv(s) && x in s.tasks && s.tasks[x].phase.Executing? && s.tasks[x].phase.k == |s.tasks[x].phase.ids|
    ensures Inv(Phased(s.(db := DeleteActions(s.db, x)), x, Clearing))
  {
    assert TaskOk(s, x);
    DeleteKeeps(s.db, x, false);
    ActionsClearedFramed(s, x);
    ActionsClearedTask(s, x);
    FrameKeeps(s, Phased(s.(db := DeleteActions(s.db, x)), x, Clearing), x);
  }

  lemma OperationClearedFramed(s: System, x: nat)
    requires TasksAndOperations(s) && x in s.tasks && s.tasks[x].phase.Clearing?
    ensures Framed(s, OperationCleared(s, x), x)
  {
  }

  lemma OperationClearedTask(s: System, x: nat)
    requires Inv(s) && x in s.tasks && s.tasks[x].phase.Clearing?
    ensures TaskOk(OperationCleared(s, x), x) && RowsOk(OperationCleared(s, x), x)
    ensures Consistent(OperationCleared(s, x).db)
  {
    assert TaskOk(s, x);
    DeleteKeeps(s.db, x, false);
    NoRows(s, x);
  }

  lemma OperationClearedKeeps(s: System, x: nat)
    requires Inv(s) && x in s.tasks && s.tasks[x].phase.Clearing?
    ensures Inv(OperationCleared(s, x))
  {
    OperationClearedFramed(s, x);
    OperationClearedTask(s, x);
    FrameKeeps(s, OperationCleared(s, x), x);
  }

  lemma SiteDeletedFramed(s: System, x: nat, hasDomains: bool)
    requires TasksAndOperations(s) && x in s.tasks && TaskOk(s, x)
    requires s.tasks[x].phase.Stored? || s.tasks[x].phase.Cleared?
    ensures Framed(s, SiteDeleted(s, x, hasDomains), x) && TaskOk(SiteDeleted(s, x, hasDomains), x)
  {
    SiteDeletedTables(s, x, hasDomains);
  }

  lemma SiteDeletedTables(s: System, x: nat, hasDomains: bool)
    requires x in s.tasks && (s.tasks[x].phase.Stored? || s.tasks[x].phase.Cleared?)
    ensures
      var s' := SiteDeleted(s, x, hasDomains);
      && s'.db == s.db.(sites := s'.db.sites) && s'.views == s.views && s'.owner == s.owner
      && s'.tasks == s.tasks[x := s.tasks[x].(phase := s.tasks[x].phase.(deleteNext := false))]
  {
  }

  lemma SiteDeletedRows(s: System, x: nat, hasDomains: bool)
    requires Inv(s) && x in s.tasks && (s.tasks[x].phase.Stored? || s.tasks[x].phase.Cleared?)
    ensures RowsOk(SiteDeleted(s, x, hasDomains), x)
  {
    var s' := SiteDeleted(s, x, hasDomains);
    forall a | a in s'.db.actions && s'.db.actions[a].op == x ensures ActionOk(s', a) {
      assert ActionOk(s, a);
      var j := PlaceOf(s, a);
      Placed(a, s'.db.actions[a], s'.tasks[x].phase, j);
    }
  }

  lemma SiteDeletedKeeps(s: System, x: nat, hasDomains: bool)
    requires Inv(s) && x in s.tasks && (s.tasks[x].phase.Stored? || s.tasks[x].phase.Cleared?)
    ensures Inv(SiteDeleted(s, x, hasDomains))
  {
    assert TaskOk(s, x);
    DeleteKeeps(s.db, s.tasks[x].site, hasDomains);
    SiteDeletedFramed(s, x, hasDomains);
    SiteDeletedRows(s, x, hasDomains);
    FrameKeeps(s, SiteDeleted(s, x, hasDomains), x);
  }

  // ---- view events ----

  /** From s to s', only rows and views were taken away or views were added; no task moved. */
  ghost predicate Shrunk(s: System, s': System) {
    && s'.tasks == s.tasks && s'.owner == s.owner
    && s'.db.nextOp == s.db.nextOp && s'.db.nextAction == s.db.nextAction
    && (forall o :: o in s'.db.ops ==> o in s.db.ops && s'.db.ops[o] == s.db.ops[o])
    && (forall a :: a in s'.db.actions ==> a in s.db.actions && s'.db.actions[a] == s.db.actions[a])
  }

  lemma ShrunkKeeps(s: System, s': System)
    requires Inv(s) && Shrunk(s, s') && Consistent(s'.db)
    requires forall v :: v in s'.views ==> ViewOk(s', v)
    ensures Inv(s')
  {
    forall x | x in s'.tasks ensures TaskOk(s', x) {
      assert TaskOk(s, x);
    }
    forall a | a in s'.db.actions ensures ActionOk(s', a) {
      assert ActionOk(s, a);
    }
  }

  /** A failure in the tables belongs to a task that has stored it and writes no row any more. */
  lemma FailedMeansStored(s: System, op: nat)
    requires Inv(s) && HasFailed(s.db, op)
    ensures op in s.tasks && s.tasks[op].phase.Stored?
  {
    var a :| a in s.db.actions && s.db.actions[a].op == op && s.db.actions[a].result.Failed?;
    var j := PlaceOf(s, a);
  }

  lemma ViewsKept(s: System, s': System, v: nat)
    requires Inv(s) && s'.tasks == s.tasks && v in s'.views
    requires v in s.views && s'.views[v] == s.views[v]
    ensures ViewOk(s', v)
  {
    assert ViewOk(s, v);
  }

  lemma ViewReadKeeps(s: System, v: nat, op: nat)
    requires Inv(s) && op in s.db.ops
    ensures Inv(ViewRead(s, v, op))
  {
    var s' := ViewRead(s, v, op);
    forall w | w in s'.views ensures ViewOk(s', w) {
      if w != v {
        ViewsKept(s, s', w);
      }
    }
    ShrunkKeeps(s, s');
  }

  lemma ViewCheckedKeeps(s: System, v: nat)
    requires Inv(s) && v in s.views && s.views[v].Holding?
    ensures Inv(ViewChecked(s, v))
  {
    var s' := ViewChecked(s, v);
    if HasFailed(s.db, s.views[v].op) {
      FailedMeansStored(s, s.views[v].op);
    }
    forall w | w in s'.views ensures ViewOk(s', w) {
      if w != v {
        ViewsKept(s, s', w);
      }
    }
    ShrunkKeeps(s, s');
  }

  lemma ActionsDeletedByKeeps(s: System, v: nat)
    requires Inv(s) && v in s.views && s.views[v].Holding?
    ensures Inv(ActionsDeletedBy(s, v))
  {
    var s' := ActionsDeletedBy(s, v);
    DeleteKeeps(s.db, s.views[v].op, false);
    assert ViewOk(s, v);
    forall w | w in s'.views ensures ViewOk(s', w) {
      if w != v {
        ViewsKept(s, s', w);
      }
    }
    ShrunkKeeps(s, s');
  }

  lemma OperationDeletedByKeeps(s: System, v: nat)
    requires Inv(s) && v in s.views && s.views[v].Emptied?
    ensures Inv(OperationDeletedBy(s, v))
  {
    var s' := OperationDeletedBy(s, v);
    DeleteKeeps(s.db, s.views[v].op, false);
    forall w | w in s'.views ensures ViewOk(s', w) {
      if w != v {
        ViewsKept(s, s', w);
      }
    }
    ShrunkKeeps(s, s');
  }

  lemma CreatedByKeeps(s: System, v: nat, kind: Kind, plan: seq<Spec>)
    requires Inv(s) && v in s.views && s.views[v].Free?
    ensures Inv(CreatedBy(s, v, kind, plan))
  {
    var s', site := CreatedBy(s, v, kind, plan), s.views[v].site;
    if CreateOperation(s.db, site).None? {
      forall w | w in s'.views ensures ViewOk(s', w) {
        ViewsKept(s, s', w);
      }
      ShrunkKeeps(s, s');
    } else {
      CreateOperationKeeps(s.db, site);
      forall x | x in s'.tasks ensures TaskOk(s', x) {
        if x != s.db.nextOp {
          assert TaskOk(s, x);
        }
      }
      forall a | a in s'.db.actions ensures ActionOk(s', a) {
        assert ActionOk(s, a);
      }
      forall w | w in s'.views ensures ViewOk(s', w) {
        assert ViewOk(s, w);
      }
      CreatedTasks(s, v, kind, plan);
    }
  }

  lemma CreatedTasks(s: System, v: nat, kind: Kind, plan: seq<Spec>)
    requires Consistent(s.db) && TasksAndOperations(s) && v in s.views && s.views[v].Free?
    ensures TasksAndOperations(CreatedBy(s, v, kind, plan))
  {
  }

  lemma ViewStepKeeps(s: System, e: Event)
    requires Inv(s) && !TaskEvent(e) && Enabled(s, e)
    ensures Inv(ViewStep(s, e))
  {
    var s' := ViewStep(s, e);
    match e
    case ViewReads(v, op) => ViewReadKeeps(s, v, op);
    case ViewChecks(v) => ViewCheckedKeeps(s, v);
    case ViewDeletesActions(v) => ActionsDeletedByKeeps(s, v);
    case ViewDeletesOperation(v) => OperationDeletedByKeeps(s, v);
    case ViewCreates(v, kind, plan) => CreatedByKeeps(s, v, kind, plan);
    case NewSite(_) => QuietViewEvent(s, s');
    case ViewFindsNone(v, _) => QuietViewEvent(s, s');
    case _ =>
  }

  /** A new site, or a view that found no operation. */
  lemma QuietViewEvent(s: System, s': System)
    requires Inv(s) && Shrunk(s, s') && Consistent(s'.db)
    requires forall v :: v in s'.views ==> (v in s.views && s'.views[v] == s.views[v]) || s'.views[v].Free?
    ensures Inv(s')
  {
    forall v | v in s'.views ensures ViewOk(s', v) {
      if !s'.views[v].Free? {
        ViewsKept(s, s', v);
      }
    }
    ShrunkKeeps(s, s');
  }

  lemma TaskStepKeeps(s: System, e: Event)
    requires Inv(s) && TaskEvent(e) && Enabled(s, e)
    ensures Inv(TaskStep(s, e))
  {
    match e
    case EarlyDelete(x) => EarlyDeletedKeeps(s, x);
    case Add(x) => AddedKeeps(s, x);
    case Start(x) => StartedKeeps(s, x);
    case StartOne(x) => ActionStartedKeeps(s, x);
    case Item(x) => ItemSavedKeeps(s, x);
    case Raise(x) => RaisedKeeps(s, x);
    case Succeed(x) => SuccessSavedKeeps(s, x);
    case StoreFailure(x) => FailureSavedKeeps(s, x);
    case ClearActions(x) => ActionsClearedKeeps(s, x);
    case ClearOperation(x) => OperationClearedKeeps(s, x);
    case DeleteTheSite(x, hasDomains) => SiteDeletedKeeps(s, x, hasDomains);
    case Fetch(x) => BeforeRowsKeep(s, e);
    case FindNoDatabase(x) => BeforeRowsKeep(s, e);
    case EarlyFetch(x, op) => BeforeRowsKeep(s, e);
    case EarlyFetchNone(x) => BeforeRowsKeep(s, e);
    case _ =>
  }

  lemma StepKeeps(s: System, e: Event)
    requires Inv(s)
    ensures Inv(Step(s, e))
  {
    if Enabled(s, e) {
      if TaskEvent(e) {
        TaskStepKeeps(s, e);
      } else {
        ViewStepKeeps(s, e);
      }
    }
  }

  /** The invariant holds after every interleaving of tasks and views. */
  lemma {:induction false} Reachable(events: seq<Event>)
    ensures Inv(After(events))
  {
    if events != [] {
      Reachable(events[..|events| - 1]);
      StepKeeps(After(events[..|events| - 1]), events[|events| - 1]);
    }
  }
}
