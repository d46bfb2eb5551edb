/** What the operation protocol guarantees over all runs, and the two places where a guarantee
    the code seems to give fails, with the exact condition. */
module OperationTheorems {
  import opened Options
  import opened OperationTable
  import opened OperationProtocol
  import opened OperationInvariant
  import Seqs

  lemma AfterSnoc(events: seq<Event>, e: Event)
    ensures After(events + [e]) == Step(After(events), e)
  {
    assert (events + [e])[..|events|] == events;
  }

  /** At most one operation for a site, and no action without its operation. */
  lemma OneOperationPerSite(events: seq<Event>)
    ensures
      var db := After(events).db;
      && (forall o, p :: o in db.ops && p in db.ops && db.ops[o].site == db.ops[p].site ==> o == p)
      && (forall a :: a in db.actions ==> db.actions[a].op in db.ops)
      && (forall o :: o in db.ops ==> db.ops[o].site in db.sites)
  {
    Reachable(events);
  }

  /** In id order, an operation's results are True, ..., True, then at most one False or running
      entry, then entries that have not started: whatever has started comes after successes only. */
  lemma ResultsInOrder(events: seq<Event>, a: nat, b: nat)
    requires
      var db := After(events).db;
      a in db.actions && b in db.actions && a < b && db.actions[a].op == db.actions[b].op
    ensures
      var db := After(events).db;
      && (db.actions[b].started ==> db.actions[a].result.Succeeded?)
      && (!db.actions[b].result.Unfinished? ==> db.actions[a].result.Succeeded?)
  {
    Reachable(events);
    var s := After(events);
    var i := PlaceOf(s, a);
    var j := PlaceOf(s, b);
    assert TaskOk(s, s.db.actions[a].op);
  }

  // ---- overriding a failed operation ----

  lemma {:induction false} StoredForever(events: seq<Event>, more: seq<Event>, x: nat)
    requires x in After(events).tasks && After(events).tasks[x].phase.Stored?
    ensures x in After(events + more).tasks && After(events + more).tasks[x].phase.Stored?
  {
    if more == [] {
      assert events + more == events;
    } else {
      var init, e := more[..|more| - 1], more[|more| - 1];
      StoredForever(events, init, x);
      assert events + more == (events + init) + [e];
      AfterSnoc(events + init, e);
      Reachable(events + init);
      StoredStays(After(events + init), e, x);
    }
  }

  lemma StoredStays(s: System, e: Event, x: nat)
    requires Inv(s) && x in s.tasks && s.tasks[x].phase.Stored?
    ensures x in Step(s, e).tasks && Step(s, e).tasks[x].phase.Stored?
  {
    if Enabled(s, e) {
      if TaskEvent(e) {
        if e.x != x {
          OtherTasks(s, e, x);
        }
      } else {
        ViewsLeaveTasks(s, e, x);
      }
    }
  }

  lemma OtherTasks(s: System, e: Event, y: nat)
    requires TaskEvent(e) && Enabled(s, e) && y in s.tasks && y != e.x
    ensures y in TaskStep(s, e).tasks && TaskStep(s, e).tasks[y] == s.tasks[y]
  {
  }

  /** A task that has stored a failure writes no row of any operation again. */
  lemma StoredTaskIsSilent(s: System, e: Event)
    requires TaskEvent(e) && e.x in s.tasks && s.tasks[e.x].phase.Stored?
    ensures Step(s, e).db.ops == s.db.ops && Step(s, e).db.actions == s.db.actions
  {
  }

  /** No override races a live task: from the moment a view got past a guard that demands a
      failure, through its deletions and forever after, whatever else runs in between, the task of
      the operation it removes writes no row. */
  lemma OverrideIsSafe(events: seq<Event>, v: nat, more: seq<Event>, e: Event)
    requires
      var s := After(events);
      v in s.views && !s.views[v].Free? && s.views[v].guarded
    requires TaskEvent(e) && e.x == After(events).views[v].op
    ensures
      var s := After(events + more);
      Step(s, e).db.ops == s.db.ops && Step(s, e).db.actions == s.db.actions
  {
    Reachable(events);
    assert ViewOk(After(events), v);
    StoredForever(events, more, e.x);
    StoredTaskIsSilent(After(events + more), e);
  }

  // ---- stale tasks ----

  /** A row of the tables that belongs to another operation than x differs. */
  ghost predicate ForeignChange(db: Tables, db': Tables, x: nat) {
    || (exists o :: o in db.ops && o != x && (o !in db'.ops || db'.ops[o] != db.ops[o]))
    || (exists a :: a in db.actions && db.actions[a].op != x && (a !in db'.actions || db'.actions[a] != db.actions[a]))
    || (exists o :: o in db'.ops && o !in db.ops)
    || (exists a :: a in db'.actions && db'.actions[a].op != x && (a !in db.actions || db.actions[a] != db'.actions[a]))
  }

  lemma OwnActionRow(db: Tables, a: nat, row: Action)
    requires a in db.actions ==> db.actions[a].op == row.op
    ensures !ForeignChange(db, db.(actions := db.actions[a := row]), row.op)
    ensures !ForeignChange(db, db.(actions := db.actions[a := row], nextAction := db.nextAction + 1), row.op)
  {
  }

  lemma OwnDeletions(db: Tables, x: nat)
    ensures !ForeignChange(db, DeleteActions(db, x), x)
    ensures DeleteOperation(db, x).Some? ==> !ForeignChange(db, DeleteOperation(db, x).value, x)
    ensures StartOperation(db, x).Some? ==> !ForeignChange(db, StartOperation(db, x).value, x)
    ensures forall sites :: !ForeignChange(db, db.(sites := sites), x)
  {
  }

  /** The row of a task's current action, if there is one, is the task's own. */
  lemma CurrentRowIsOwn(s: System, x: nat)
    requires Inv(s) && AtAction(s, x)
    ensures CurrentIsOwn(s, x)
  {
    var a := s.tasks[x].phase.ids[s.tasks[x].phase.k];
    assert TaskOk(s, x);
    assert a in s.owner && s.owner[a] == x;
    assert a in s.db.actions ==> ActionOk(s, a);
  }

  ghost predicate CurrentIsOwn(s: System, x: nat)
    requires AtAction(s, x)
  {
    var a := s.tasks[x].phase.ids[s.tasks[x].phase.k];
    a in s.db.actions ==> s.db.actions[a].op == x
  }

  lemma NoChange(db: Tables, x: nat)
    ensures !ForeignChange(db, db, x)
  {
  }

  lemma SavedTables(s: System, x: nat, result: Result, onSuccess: Phase, onError: Phase)
    requires AtAction(s, x)
    ensures
      var p := s.tasks[x].phase;
      var db := SaveAction(s.db, p.ids[p.k], Row(s, x, p.k, result));
      Saved(s, x, result, onSuccess, onError).db == if db.Some? then db.value else s.db
  {
  }

  /** A full save of the task's current action. */
  lemma SavedIsOwn(s: System, x: nat, result: Result, onSuccess: Phase, onError: Phase)
    requires AtAction(s, x) && CurrentIsOwn(s, x)
    ensures !ForeignChange(s.db, Saved(s, x, result, onSuccess, onError).db, x)
  {
    var p := s.tasks[x].phase;
    SavedTables(s, x, result, onSuccess, onError);
    OwnActionRow(s.db, p.ids[p.k], Row(s, x, p.k, result));
    NoChange(s.db, x);
  }

  lemma ActionStartIsOwn(s: System, x: nat)
    requires AtAction(s, x) && CurrentIsOwn(s, x)
    ensures !ForeignChange(s.db, ActionStarted(s, x).db, x)
  {
    var p := s.tasks[x].phase;
    var a := p.ids[p.k];
    if a in s.db.actions {
      OwnActionRow(s.db, a, s.db.actions[a].(started := true));
    }
  }

  lemma WritesAreOwn(s: System, e: Event)
    requires Inv(s) && TaskEvent(e) && Enabled(s, e)
    requires e.StartOne? || e.Item? || e.Succeed? || e.StoreFailure?
    ensures !ForeignChange(s.db, TaskStep(s, e).db, e.x)
  {
    CurrentRowIsOwn(s, e.x);
    match e
    case StartOne(x) => ActionStartIsOwn(s, x);
    case Item(x) => SavesAreOwn(s, x);
    case Succeed(x) => SavesAreOwn(s, x);
    case StoreFailure(x) => SavesAreOwn(s, x);
    case _ =>
  }

  lemma SavesAreOwn(s: System, x: nat)
    requires AtAction(s, x) && CurrentIsOwn(s, x)
    ensures !ForeignChange(s.db, ItemSaved(s, x).db, x)
    ensures !ForeignChange(s.db, SuccessSaved(s, x).db, x)
    ensures !ForeignChange(s.db, FailureSaved(s, x).db, x)
  {
    var p := s.tasks[x].phase;
    SavedIsOwn(s, x, Unfinished, Running(p.ids, p.k), Failing(p.ids, p.k));
    SavedIsOwn(s, x, Succeeded, Executing(p.ids, p.k + 1), Failing(p.ids, p.k));
    SavedIsOwn(s, x, Failed, Stored(p.ids, p.k, s.tasks[x].kind.SiteDeletion?), Crashed);
  }

  lemma AddedIsOwn(s: System, x: nat)
    requires Consistent(s.db)
    requires x in s.tasks && s.tasks[x].phase.Adding? && |s.tasks[x].phase.ids| < |s.tasks[x].plan|
    ensures !ForeignChange(s.db, Added(s, x).db, x)
  {
    var spec := s.tasks[x].plan[|s.tasks[x].phase.ids|];
    NoChange(s.db, x);
    OwnActionRow(s.db, s.db.nextAction, Action(x, spec.slug, spec.recoverable, false, Unfinished));
  }

  lemma EndsAreOwn(s: System, x: nat, hasDomains: bool)
    requires x in s.tasks
    ensures s.tasks[x].phase.Adding? ==> !ForeignChange(s.db, Started(s, x).db, x)
    ensures !ForeignChange(s.db, OperationCleared(s, x).db, x)
    ensures s.tasks[x].phase.Stored? || s.tasks[x].phase.Cleared? ==> !ForeignChange(s.db, SiteDeleted(s, x, hasDomains).db, x)
  {
    NoChange(s.db, x);
    OwnDeletions(s.db, x);
  }

  lemma OtherStatementsAreOwn(s: System, e: Event)
    requires Inv(s) && TaskEvent(e) && Enabled(s, e) && !e.EarlyDelete?
    requires !e.StartOne? && !e.Item? && !e.Succeed? && !e.StoreFailure?
    ensures !ForeignChange(s.db, TaskStep(s, e).db, e.x)
  {
    NoChange(s.db, e.x);
    match e
    case Add(x) => AddedIsOwn(s, x);
    case Start(x) => EndsAreOwn(s, x, false);
    case ClearActions(x) => OwnDeletions(s.db, x);
    case ClearOperation(x) => EndsAreOwn(s, x, false);
    case DeleteTheSite(x, hasDomains) => EndsAreOwn(s, x, hasDomains);
    case _ =>
  }

  /** A task changes rows of another operation exactly when it is a database deletion that found no
      database and whose own operation was replaced before it fetched its site's operation: it then
      deletes the one it fetched, which is newer, if that is still there and has no actions. */
  lemma StaleTaskIsolation(events: seq<Event>, e: Event)
    requires TaskEvent(e) && Enabled(After(events), e)
    ensures
      var s := After(events);
      ForeignChange(s.db, Step(s, e).db, e.x) <==>
      (e.EarlyDelete? && var op := s.tasks[e.x].phase.op; op != e.x && op in s.db.ops && !HasActions(s.db, op))
    ensures e.EarlyDelete? ==> e.x <= After(events).tasks[e.x].phase.op
  {
    Reachable(events);
    var s := After(events);
    if e.EarlyDelete? {
      EarlyDeletionChanges(s, e.x);
    } else if e.StartOne? || e.Item? || e.Succeed? || e.StoreFailure? {
      WritesAreOwn(s, e);
    } else {
      OtherStatementsAreOwn(s, e);
    }
  }

  lemma EarlyDeletionChanges(s: System, x: nat)
    requires Inv(s) && x in s.tasks && s.tasks[x].phase.EarlyHolding?
    ensures
      var op := s.tasks[x].phase.op;
      && x <= op
      && (ForeignChange(s.db, EarlyDeleted(s, x).db, x) <==> op != x && op in s.db.ops && !HasActions(s.db, op))
  {
    var op := s.tasks[x].phase.op;
    assert TaskOk(s, x);
    NoChange(s.db, x);
    OwnDeletions(s.db, x);
    if op in s.db.ops {
      if op != x && !HasActions(s.db, op) {
        assert op !in EarlyDeleted(s, x).db.ops;
      }
    } else {
      assert s.db.ops - {op} == s.db.ops;
    }
  }

  // ---- the end of delete_site_task ----

  ghost predicate SiteGoes(s: System, x: nat, hasDomains: bool)
    requires Enabled(s, DeleteTheSite(x, hasDomains))
  {
    s.tasks[x].site in s.db.sites && s.tasks[x].site !in Step(s, DeleteTheSite(x, hasDomains)).db.sites
  }

  /** delete_site_task reaches site.delete() whether or not its actions succeeded.  The site row
      then goes away exactly when neither a domain nor any operation protects it at that moment, and
      a failure that was stored before does not stand in the way. */
  lemma SiteVanishes(events: seq<Event>, x: nat, hasDomains: bool)
    requires Enabled(After(events), DeleteTheSite(x, hasDomains))
    ensures
      var s := After(events);
      var t := s.tasks[x];
      && t.kind.SiteDeletion?
      && (SiteGoes(s, x, hasDomains) <==> t.site in s.db.sites && !hasDomains && !HasOperation(s.db, t.site))
      && (t.returned < |t.plan| <==> t.phase.Stored?)
  {
    Reachable(events);
    assert TaskOk(After(events), x);
  }

  lemma NoTaskAdded(s: System, e: Event)
    requires TaskEvent(e) && Enabled(s, e)
    ensures TaskStep(s, e).tasks.Keys == s.tasks.Keys
  {
  }

  lemma ViewsAddTasks(s: System, e: Event, x: nat)
    requires !TaskEvent(e) && Enabled(s, e)
    ensures x in s.tasks ==> x in ViewStep(s, e).tasks
    ensures x !in s.tasks && x in ViewStep(s, e).tasks ==> x in ViewStep(s, e).db.ops
  {
  }

  lemma NewTaskHasOperation(s: System, e: Event, x: nat)
    requires x !in s.tasks && x in Step(s, e).tasks
    ensures x in Step(s, e).db.ops
  {
    if TaskEvent(e) {
      NoTaskAdded(s, e);
    } else {
      ViewsAddTasks(s, e, x);
    }
  }

  /** An operation whose task exists and whose row is gone was removed by one event of the run. */
  lemma {:induction false} RemovedAt(events: seq<Event>, x: nat) returns (i: nat)
    requires x in After(events).tasks && x !in After(events).db.ops
    ensures i < |events| && x in After(events[..i]).db.ops && x !in After(events[..i + 1]).db.ops
  {
    assert events != [];
    var n := |events| - 1;
    var init := events[..n];
    if x in After(init).db.ops {
      i := n;
      assert events[..n + 1] == events;
    } else {
      if x !in After(init).tasks {
        NewTaskHasOperation(After(init), events[n], x);
      }
      i := RemovedAt(init, x);
      Seqs.PrefixOfPrefix(events, n, i);
      Seqs.PrefixOfPrefix(events, n, i + 1);
    }
  }

  lemma NoRowReturns(s: System, e: Event, x: nat)
    requires x < s.db.nextOp && x !in s.db.ops
    ensures x !in Step(s, e).db.ops
  {
    if Enabled(s, e) {
      if TaskEvent(e) {
        TasksCreateNone(s, e);
      } else {
        ViewsCreateNewest(s, e);
      }
    }
  }

  lemma TasksCreateNone(s: System, e: Event)
    requires TaskEvent(e) && Enabled(s, e)
    ensures TaskStep(s, e).db.ops.Keys <= s.db.ops.Keys
  {
  }

  lemma ViewsCreateNewest(s: System, e: Event)
    requires !TaskEvent(e) && Enabled(s, e)
    ensures ViewStep(s, e).db.ops.Keys <= s.db.ops.Keys + {s.db.nextOp}
  {
  }

  lemma NothingToStore(s: System, e: Event)
    requires TaskEvent(e) && Enabled(s, e) && e.x !in s.db.ops && !s.tasks[e.x].phase.Stored?
    ensures !TaskStep(s, e).tasks[e.x].phase.Stored?
  {
  }

  /** Once its row is gone an operation stays gone, and its task stores no failure any more. */
  lemma GoneStays(s: System, e: Event, x: nat)
    requires Inv(s) && x in s.tasks && x !in s.db.ops
    ensures x in Step(s, e).tasks && x !in Step(s, e).db.ops
    ensures Step(s, e).tasks[x].phase.Stored? ==> s.tasks[x].phase.Stored?
  {
    NoRowReturns(s, e, x);
    TaskStays(s, e, x);
    if Enabled(s, e) && TaskEvent(e) && !s.tasks[x].phase.Stored? {
      if e.x == x {
        NothingToStore(s, e);
      } else {
        OtherTasks(s, e, x);
      }
    }
    if Enabled(s, e) && !TaskEvent(e) {
      ViewsLeaveTasks(s, e, x);
    }
  }

  lemma ViewsLeaveTasks(s: System, e: Event, x: nat)
    requires !TaskEvent(e) && Enabled(s, e) && x in s.tasks && x < s.db.nextOp
    ensures x in ViewStep(s, e).tasks && ViewStep(s, e).tasks[x] == s.tasks[x]
  {
  }

  lemma {:induction false} StoredBefore(events: seq<Event>, i: nat, x: nat)
    requires i <= |events| && x in After(events[..i]).tasks && x !in After(events[..i]).db.ops
    ensures x in After(events).tasks && x !in After(events).db.ops
    ensures After(events).tasks[x].phase.Stored? ==> After(events[..i]).tasks[x].phase.Stored?
  {
    if i == |events| {
      assert events[..i] == events;
    } else {
      var init := events[..|events| - 1];
      Seqs.PrefixOfPrefix(events, |events| - 1, i);
      StoredBefore(init, i, x);
      Reachable(init);
      GoneStays(After(init), events[|events| - 1], x);
    }
  }

  /** The event took operation x away by its id: a view that held it, or another task, a database
      deletion that had fetched it as its site's operation. */
  ghost predicate TakesAway(s: System, e: Event, x: nat) {
    || (e.ViewDeletesOperation? && e.v in s.views && s.views[e.v].Emptied? && s.views[e.v].op == x)
    || (e.EarlyDelete? && e.x != x && e.x in s.tasks && s.tasks[e.x].phase == EarlyHolding(x) && !HasActions(s.db, x))
  }

  lemma ClearingEnds(s: System, x: nat)
    requires x in s.tasks
    ensures ClearsOwn(s, x) ==> !Step(s, ClearOperation(x)).tasks[x].phase.Stored?
    ensures s.tasks[x].phase.EarlyHolding? ==> !Step(s, EarlyDelete(x)).tasks[x].phase.Stored?
  {
  }

  predicate ClearsOwn(s: System, x: nat)
    requires x in s.tasks
  {
    s.tasks[x].phase.Clearing?
  }

  lemma RemovalTakesAway(s: System, e: Event, x: nat)
    requires Inv(s) && x in s.db.ops && x !in Step(s, e).db.ops
    requires x in Step(s, e).tasks && Step(s, e).tasks[x].phase.Stored?
    ensures TakesAway(s, e, x) && x in s.tasks && s.tasks[x].phase.Stored?
  {
    OnlyTheseRemoveOperations(s, e, x);
    ClearingEnds(s, x);
    if TaskEvent(e) {
      if e.x != x {
        OtherTasks(s, e, x);
      }
    } else {
      ViewsLeaveTasks(s, e, x);
    }
  }

  /** The removal of a stored operation, found and named. */
  lemma TakenAwayAt(events: seq<Event>, x: nat) returns (i: nat)
    requires x in After(events).tasks && x !in After(events).db.ops && After(events).tasks[x].phase.Stored?
    ensures i < |events| && TakesAway(After(events[..i]), events[i], x)
    ensures x in After(events[..i]).db.ops && x !in After(events[..i + 1]).db.ops
    ensures x in After(events[..i]).tasks && After(events[..i]).tasks[x].phase.Stored?
  {
    i := RemovedAt(events, x);
    assert events[..i + 1] == events[..i] + [events[i]];
    AfterSnoc(events[..i], events[i]);
    Reachable(events[..i]);
    TaskStays(After(events[..i]), events[i], x);
    StoredBefore(events, i + 1, x);
    RemovalTakesAway(After(events[..i]), events[i], x);
  }

  /** When a site goes in spite of a failed action, then earlier in the run, after the failure was
      stored, somebody else took the deletion's operation away, and at the moment of site.delete()
      no other operation of the site stands. */
  lemma VanishedDespiteFailure(events: seq<Event>, x: nat, hasDomains: bool) returns (i: nat)
    requires Enabled(After(events), DeleteTheSite(x, hasDomains)) && SiteGoes(After(events), x, hasDomains)
    requires After(events).tasks[x].returned < |After(events).tasks[x].plan|
    ensures i < |events| && TakesAway(After(events[..i]), events[i], x)
    ensures x in After(events[..i]).db.ops && x !in After(events[..i + 1]).db.ops
    ensures x in After(events[..i]).tasks && After(events[..i]).tasks[x].phase.Stored?
    ensures !HasOperation(After(events).db, After(events).tasks[x].site)
  {
    SiteVanishes(events, x, hasDomains);
    Reachable(events);
    OwnRowGone(After(events), x);
    i := TakenAwayAt(events, x);
  }

  lemma OwnRowGone(s: System, x: nat)
    requires Inv(s) && x in s.tasks && !HasOperation(s.db, s.tasks[x].site)
    ensures x !in s.db.ops
  {
  }

  lemma TaskStays(s: System, e: Event, x: nat)
    requires x in s.tasks
    ensures x in Step(s, e).tasks
  {
    if Enabled(s, e) {
      if TaskEvent(e) {
        NoTaskAdded(s, e);
      } else {
        ViewsAddTasks(s, e, x);
      }
    }
  }

  /** Nothing else removes a site. */
  lemma OnlyDeletionRemovesSites(s: System, e: Event, site: nat)
    requires site in s.db.sites && site !in Step(s, e).db.sites
    ensures e.DeleteTheSite? && Enabled(s, e) && s.tasks[e.x].site == site
  {
  }

  /** The row of an operation goes away only through its own task's end, a view that held it, or
      the early exit of a database deletion. */
  lemma OnlyTheseRemoveOperations(s: System, e: Event, o: nat)
    requires o in s.db.ops && o !in Step(s, e).db.ops
    ensures
      || e == ClearOperation(o)
      || (e.ViewDeletesOperation? && e.v in s.views && s.views[e.v] == Emptied(s.views[e.v].site, o, s.views[e.v].guarded))
      || (e.EarlyDelete? && e.x in s.tasks && s.tasks[e.x].phase == EarlyHolding(o))
  {
    if TaskEvent(e) {
      TasksRemoveOnly(s, e, o);
    } else {
      ViewsRemoveOnly(s, e, o);
    }
  }

  lemma TasksRemoveOnly(s: System, e: Event, o: nat)
    requires TaskEvent(e) && Enabled(s, e) && o in s.db.ops && o !in TaskStep(s, e).db.ops
    ensures e == ClearOperation(o) || (e.EarlyDelete? && s.tasks[e.x].phase == EarlyHolding(o))
  {
  }

  lemma ViewsRemoveOnly(s: System, e: Event, o: nat)
    requires !TaskEvent(e) && Enabled(s, e) && o in s.db.ops && o !in ViewStep(s, e).db.ops
    ensures e.ViewDeletesOperation? && s.views[e.v].op == o
  {
  }

  /** So while a failed deletion's operation row stands, its site stays. */
  lemma ProtectedSite(events: seq<Event>, x: nat, e: Event)
    requires
      var s := After(events);
      x in s.db.ops && x in s.tasks && s.tasks[x].phase.Stored?
    ensures After(events).tasks[x].site in Step(After(events), e).db.sites
  {
    Reachable(events);
    var s := After(events);
    if s.tasks[x].site !in Step(s, e).db.sites {
      OnlyDeletionRemovesSites(s, e, s.tasks[x].site);
      assert HasOperation(s.db, s.tasks[x].site);
    }
  }
}
