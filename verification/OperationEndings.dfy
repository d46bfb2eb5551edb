/** How operations end: what is left of them, and what a task that nothing disturbs leaves behind. */
module OperationEndings {
  import opened Options
  import opened OperationTable
  import opened OperationProtocol
  import opened OperationInvariant
  import opened OperationTheorems
  import opened OperationOutcomes

  // ---- ended means gone ----

  /** A task that has ended well, or is about to delete an operation that is not its own, has lost its
      own operation's row. */
  ghost predicate GoneOk(s: System, x: nat)
    requires x in s.tasks
  {
    s.tasks[x].phase.Cleared? || (s.tasks[x].phase.EarlyHolding? && s.tasks[x].phase.op != x) ==> x !in s.db.ops
  }

  lemma OnlyOfSite(s: System, x: nat, op: nat)
    requires Inv(s) && x in s.tasks && x in s.db.ops && op in s.db.ops && s.db.ops[op].site == s.tasks[x].site
    ensures op == x
  {
  }

  /** Statements after which the task has neither ended well nor holds an operation. */
  lemma StaysBefore(s: System, e: Event)
    requires TaskEvent(e) && Enabled(s, e) && !e.EarlyFetch? && !e.EarlyDelete? && !e.ClearOperation?
    requires !s.tasks[e.x].phase.Cleared? && !s.tasks[e.x].phase.EarlyHolding?
    ensures
      var s' := TaskStep(s, e);
      e.x in s'.tasks && !s'.tasks[e.x].phase.Cleared? && !s'.tasks[e.x].phase.EarlyHolding?
  {
  }

  /** Statements that delete an operation. */
  lemma DeletionEnds(s: System, e: Event)
    requires TaskEvent(e) && Enabled(s, e) && (e.EarlyDelete? || e.ClearOperation?)
    requires e.EarlyDelete? ==> s.tasks[e.x].phase.op == e.x
    ensures e.x in TaskStep(s, e).tasks && GoneOk(TaskStep(s, e), e.x)
  {
  }

  lemma OwnStepEnds(s: System, e: Event)
    requires Inv(s) && TaskEvent(e) && Enabled(s, e) && GoneOk(s, e.x) && e.x in s.db.ops
    ensures e.x in TaskStep(s, e).tasks && GoneOk(TaskStep(s, e), e.x)
  {
    if e.EarlyFetch? {
      OnlyOfSite(s, e.x, e.op);
    } else if e.EarlyDelete? || e.ClearOperation? {
      DeletionEnds(s, e);
    } else {
      StaysBefore(s, e);
    }
  }

  lemma GoneStep(s: System, e: Event, x: nat)
    requires Inv(s) && x in s.tasks && GoneOk(s, x)
    ensures x in Step(s, e).tasks && GoneOk(Step(s, e), x)
  {
    TaskStays(s, e, x);
    if x !in s.db.ops {
      NoRowReturns(s, e, x);
    } else if Enabled(s, e) {
      if !TaskEvent(e) {
        ViewsLeaveTasks(s, e, x);
      } else if e.x == x {
        OwnStepEnds(s, e);
      } else {
        OtherTasks(s, e, x);
      }
    }
  }

  lemma NewTaskQueued(s: System, e: Event, x: nat)
    requires x !in s.tasks && x in Step(s, e).tasks
    ensures Step(s, e).tasks[x].phase.Queued?
  {
    if TaskEvent(e) {
      NoTaskAdded(s, e);
    }
  }

  lemma {:induction false} GoneReachable(events: seq<Event>, x: nat)
    requires x in After(events).tasks
    ensures GoneOk(After(events), x)
  {
    assert events != [];
    var init, e := events[..|events| - 1], events[|events| - 1];
    Reachable(init);
    if x in After(init).tasks {
      GoneReachable(init, x);
      GoneStep(After(init), e, x);
    } else {
      NewTaskQueued(After(init), e, x);
    }
  }

  /** In every reachable state nothing is left of an operation whose task has ended well: neither its
      row nor any of its actions. */
  lemma ClearedMeansGone(events: seq<Event>, x: nat)
    requires x in After(events).tasks && After(events).tasks[x].phase.Cleared?
    ensures x !in After(events).db.ops && !HasActions(After(events).db, x)
  {
    GoneReachable(events, x);
    Reachable(events);
    NoRows(After(events), x);
  }

  // ---- a task left alone, to its end ----

  lemma NoForeignChain(a: Tables, b: Tables, c: Tables, x: nat)
    requires !ForeignChange(a, b, x) && !ForeignChange(b, c, x)
    ensures !ForeignChange(a, c, x)
  {
  }

  /** What a task runs on its own touches no other operation. */
  lemma {:induction false} OwnEvents(events: seq<Event>, more: seq<Event>, x: nat)
    requires OnlyTask(more, x)
    ensures !ForeignChange(After(events).db, After(events + more).db, x)
  {
    if more == [] {
      assert events + more == events;
      NoChange(After(events).db, x);
    } else {
      var init, e := more[..|more| - 1], more[|more| - 1];
      assert events + more == (events + init) + [e];
      assert more[|more| - 1].x == x && forall i :: 0 <= i < |init| ==> init[i] == more[i];
      OwnEvents(events, init, x);
      AfterSnoc(events + init, e);
      NoChange(After(events + init).db, x);
      if Enabled(After(events + init), e) {
        StaleTaskIsolation(events + init, e);
      }
      NoForeignChain(After(events).db, After(events + init).db, After(events + more).db, x);
    }
  }

  lemma OwnStepKeepsSite(s: System, e: Event)
    requires TaskEvent(e) && Enabled(s, e)
    ensures e.x in TaskStep(s, e).tasks && TaskStep(s, e).tasks[e.x].site == s.tasks[e.x].site
  {
  }

  lemma {:induction false} SiteKept(events: seq<Event>, more: seq<Event>, x: nat)
    requires OnlyTask(more, x) && x in After(events).tasks
    ensures x in After(events + more).tasks && After(events + more).tasks[x].site == After(events).tasks[x].site
  {
    if more == [] {
      assert events + more == events;
    } else {
      var init, e := more[..|more| - 1], more[|more| - 1];
      assert events + more == (events + init) + [e];
      assert Runs(e, x) && forall i :: 0 <= i < |init| ==> init[i] == more[i];
      SiteKept(events, init, x);
      AfterSnoc(events + init, e);
      if Enabled(After(events + init), e) {
        OwnStepKeepsSite(After(events + init), e);
      }
    }
  }

  /** The operation is over and gone. */
  ghost predicate Over(s: System, x: nat, deleteNext: bool) {
    && x in s.tasks && s.tasks[x].phase == Cleared(deleteNext)
    && x !in s.db.ops && !HasActions(s.db, x) && !HasOperation(s.db, s.tasks[x].site)
  }

  lemma ClearStep(s: System, x: nat, kind: Kind, plan: seq<Spec>, ids: seq<nat>)
    requires At(s, x, kind, plan, Executing(ids, |ids|))
    ensures
      var s' := Step(s, ClearActions(x));
      && At(s', x, kind, plan, Clearing) && !HasActions(s'.db, x)
      && s'.db.ops == s.db.ops && s'.tasks[x].site == s.tasks[x].site
  {
  }

  lemma EndStep(s: System, x: nat, kind: Kind, plan: seq<Spec>)
    requires Inv(s) && At(s, x, kind, plan, Clearing) && !HasActions(s.db, x)
    ensures Over(Step(s, ClearOperation(x)), x, kind.SiteDeletion?)
  {
    ClearedTo(s, x);
    NoneOfSite(s, x);
  }

  lemma ClearedTo(s: System, x: nat)
    requires x in s.tasks && s.tasks[x].phase.Clearing? && !HasActions(s.db, x)
    ensures
      Step(s, ClearOperation(x)) ==
      Phased(s.(db := s.db.(ops := s.db.ops - {x})), x, Cleared(s.tasks[x].kind.SiteDeletion?))
  {
  }

  lemma NoneOfSite(s: System, x: nat)
    requires Inv(s) && x in s.tasks && x in s.db.ops && !HasActions(s.db, x)
    ensures
      var db := s.db.(ops := s.db.ops - {x});
      x !in db.ops && !HasActions(db, x) && !HasOperation(db, s.tasks[x].site)
  {
    forall o | o in s.db.ops && s.db.ops[o].site == s.tasks[x].site ensures o == x {
      OnlyOfSite(s, x, o);
    }
  }

  lemma ClearsAlone(events: seq<Event>, more: seq<Event>, x: nat, kind: Kind, plan: seq<Spec>, ids: seq<nat>)
    returns (longer: seq<Event>)
    requires OnlyTask(more, x) && At(After(events + more), x, kind, plan, Executing(ids, |ids|))
    ensures OnlyTask(longer, x) && Over(After(events + longer), x, kind.SiteDeletion?)
  {
    Reachable(events + more);
    ClearBoth(After(events + more), x, kind, plan, ids);
    longer := OneMore(events, more, x, ClearActions(x));
    longer := OneMore(events, longer, x, ClearOperation(x));
  }

  lemma ClearBoth(s: System, x: nat, kind: Kind, plan: seq<Spec>, ids: seq<nat>)
    requires Inv(s) && At(s, x, kind, plan, Executing(ids, |ids|))
    ensures Over(Step(Step(s, ClearActions(x)), ClearOperation(x)), x, kind.SiteDeletion?)
  {
    ClearStep(s, x, kind, plan, ids);
    StepKeeps(s, ClearActions(x));
    EndStep(Step(s, ClearActions(x)), x, kind, plan);
  }

  /** A task that nothing disturbs and whose callbacks all return ends with its operation gone: no row
      of it, no action of it, no operation for its site, and no other operation's row changed. */
  lemma SucceedsAlone(events: seq<Event>, x: nat, cs: seq<Callback>) returns (more: seq<Event>)
    requires x in After(events).tasks && x in After(events).db.ops && After(events).tasks[x].phase.Queued?
    requires |cs| == |After(events).tasks[x].plan| == Returned(cs)
    ensures OnlyTask(more, x)
    ensures Over(After(events + more), x, After(events).tasks[x].kind.SiteDeletion?)
    ensures After(events + more).tasks[x].site == After(events).tasks[x].site
    ensures !ForeignChange(After(events).db, After(events + more).db, x)
  {
    var kind, plan := After(events).tasks[x].kind, After(events).tasks[x].plan;
    var ids, p;
    more, ids, p := RunThrough(events, x, kind, plan, cs);
    more := ClearsAlone(events, more, x, kind, plan, ids);
    OwnEvents(events, more, x);
    SiteKept(events, more, x);
  }

  lemma SiteStep(s: System, x: nat)
    requires Over(s, x, true)
    ensures
      var s' := Step(s, DeleteTheSite(x, false));
      && s'.db.sites == s.db.sites - {s.tasks[x].site} && s'.db.ops == s.db.ops && s'.db.actions == s.db.actions
  {
  }

  /** So a site deletion that nothing disturbs, whose callbacks return and whose domains are gone, takes
      the site away. */
  lemma DeletesSiteAlone(events: seq<Event>, x: nat, cs: seq<Callback>) returns (more: seq<Event>)
    requires x in After(events).tasks && x in After(events).db.ops && After(events).tasks[x].phase.Queued?
    requires After(events).tasks[x].kind.SiteDeletion?
    requires |cs| == |After(events).tasks[x].plan| == Returned(cs)
    ensures OnlyTask(more, x)
    ensures x !in After(events + more).db.ops && !HasActions(After(events + more).db, x)
    ensures After(events).tasks[x].site !in After(events + more).db.sites
    ensures !ForeignChange(After(events).db, After(events + more).db, x)
  {
    more := SucceedsAlone(events, x, cs);
    var s := After(events + more);
    SiteStep(s, x);
    more := OneMore(events, more, x, DeleteTheSite(x, false));
    OwnEvents(events, more, x);
  }

  // ---- the early exit ----

  lemma EarlyFound(s: System, x: nat)
    requires x in s.tasks && x in s.db.ops && s.tasks[x].phase.Queued? && s.tasks[x].kind.DatabaseDeletion?
    ensures Step(s, FindNoDatabase(x)) == Phased(s, x, EarlyOut)
  {
  }

  lemma EarlyFetched(s: System, x: nat)
    requires x in s.tasks && x in s.db.ops && s.db.ops[x].site == s.tasks[x].site && s.tasks[x].phase.EarlyOut?
    ensures Step(s, EarlyFetch(x, x)) == Phased(s, x, EarlyHolding(x))
  {
  }

  lemma EarlyGone(s: System, x: nat)
    requires x in s.tasks && s.tasks[x].phase == EarlyHolding(x) && !HasActions(s.db, x)
    ensures Step(s, EarlyDelete(x)) == Phased(s.(db := s.db.(ops := s.db.ops - {x})), x, Cleared(false))
  {
  }

  /** A database deletion that finds no database and that nothing disturbs deletes its own operation
      and nothing else. */
  lemma EarlyExitAlone(events: seq<Event>, x: nat)
    requires x in After(events).tasks && x in After(events).db.ops && After(events).tasks[x].phase.Queued?
    requires After(events).tasks[x].kind.DatabaseDeletion?
    ensures
      var s, s' := After(events), After(events + [FindNoDatabase(x)] + [EarlyFetch(x, x)] + [EarlyDelete(x)]);
      && s'.db == s.db.(ops := s.db.ops - {x}) && Over(s', x, false)
  {
    Reachable(events);
    var s := After(events);
    AfterSnoc(events, FindNoDatabase(x));
    AfterSnoc(events + [FindNoDatabase(x)], EarlyFetch(x, x));
    AfterSnoc(events + [FindNoDatabase(x)] + [EarlyFetch(x, x)], EarlyDelete(x));
    EarlyFound(s, x);
    EarlyFetched(Phased(s, x, EarlyOut), x);
    NoRows(s, x);
    EarlyGone(Phased(Phased(s, x, EarlyOut), x, EarlyHolding(x)), x);
    NoneOfSite(s, x);
  }

  predicate EarlyKind(t: Task) {
    t.phase.EarlyOut? || t.phase.EarlyHolding? ==> t.kind.DatabaseDeletion?
  }

  lemma OwnStepKind(s: System, e: Event)
    requires TaskEvent(e) && Enabled(s, e) && EarlyKind(s.tasks[e.x])
    ensures e.x in TaskStep(s, e).tasks && EarlyKind(TaskStep(s, e).tasks[e.x])
  {
  }

  /** Only a database deletion takes the early exit. */
  lemma {:induction false} EarlyMeansDatabase(events: seq<Event>, x: nat)
    requires x in After(events).tasks
    ensures EarlyKind(After(events).tasks[x])
  {
    assert events != [];
    var init, e := events[..|events| - 1], events[|events| - 1];
    Reachable(init);
    if x !in After(init).tasks {
      NewTaskQueued(After(init), e, x);
    } else {
      EarlyMeansDatabase(init, x);
      if Enabled(After(init), e) {
        if !TaskEvent(e) {
          ViewsLeaveTasks(After(init), e, x);
        } else if e.x == x {
          OwnStepKind(After(init), e);
        } else {
          OtherTasks(After(init), e, x);
        }
      }
    }
  }

  // ---- a task without its operation ----

  lemma NothingToSave(s: System, e: Event)
    requires TaskEvent(e) && Enabled(s, e) && !e.EarlyDelete? && e.x !in s.db.ops && !HasActions(s.db, e.x)
    requires e.StartOne? ==> s.tasks[e.x].phase.ids[s.tasks[e.x].phase.k] !in s.db.actions
    ensures TaskStep(s, e).db.actions == s.db.actions && TaskStep(s, e).db.ops == s.db.ops
  {
  }

  /** Once its operation's row is gone, a task writes no row of any operation, except by the early
      exit. */
  lemma GoneTaskIsSilent(events: seq<Event>, e: Event)
    requires TaskEvent(e) && e.x in After(events).tasks && e.x !in After(events).db.ops && !e.EarlyDelete?
    ensures
      var s := After(events);
      Step(s, e).db.ops == s.db.ops && Step(s, e).db.actions == s.db.actions
  {
    Reachable(events);
    var s := After(events);
    if Enabled(s, e) {
      NoRows(s, e.x);
      if e.StartOne? {
        CurrentRowIsOwn(s, e.x);
      }
      NothingToSave(s, e);
    }
  }

  /** Nor does it get any further: every statement of its that needs the row raises.  Inside an action
      the failure is caught, and storing it raises again; elsewhere the task is over. */
  lemma GoneTaskRaises(events: seq<Event>, e: Event)
    requires TaskEvent(e) && Enabled(After(events), e) && e.x !in After(events).db.ops
    ensures
      var s := After(events);
      var p, p' := s.tasks[e.x].phase, Step(s, e).tasks[e.x].phase;
      && (e.Fetch? || e.Add? || e.Start? || e.StoreFailure? ==> p' == Crashed)
      && (e.StartOne? || e.Item? || e.Succeed? || e.Raise? ==> p' == Failing(p.ids, p.k))
  {
    Reachable(events);
    NoRows(After(events), e.x);
    if e.StartOne? {
      CurrentRowIsOwn(After(events), e.x);
    }
  }

  /** A database deletion whose site has no operation at all any more raises when it looks for it. */
  lemma NothingToFetch(s: System, x: nat)
    requires x in s.tasks && s.tasks[x].phase.EarlyOut? && !HasOperation(s.db, s.tasks[x].site)
    ensures Step(s, EarlyFetchNone(x)) == s.(tasks := s.tasks[x := s.tasks[x].(phase := Crashed)])
  {
  }

  // ---- what views may do ----

  /** A guard lets a view keep the operation it has read exactly if that has failed; otherwise the view
      is over. */
  lemma GuardDecides(s: System, v: nat)
    requires v in s.views && s.views[v].Holding? && !s.views[v].guarded
    ensures
      var s' := Step(s, ViewChecks(v));
      && s'.db == s.db && s'.tasks == s.tasks
      && (v in s'.views <==> HasFailed(s.db, s.views[v].op))
      && (v in s'.views ==> s'.views[v] == Holding(s.views[v].site, s.views[v].op, true))
      && forall w :: w != v ==> (w in s'.views <==> w in s.views) && (w in s.views ==> s'.views[w] == s.views[w])
  {
  }

  /** A view that finds no operation for its site may go on to create one. */
  lemma FindsNone(s: System, v: nat, site: nat)
    requires v !in s.views
    ensures
      var s' := Step(s, ViewFindsNone(v, site));
      if HasOperation(s.db, site) then s' == s else s' == s.(views := s.views[v := Free(site)])
  {
  }

  /** A view's deletions: first all actions of the operation it holds and no others; then the operation,
      unless actions have come in again, in which case the view is over. */
  lemma ViewDeletes(s: System, v: nat)
    requires v in s.views && !s.views[v].Free?
    ensures
      var op := s.views[v].op;
      && (s.views[v].Holding? ==>
            var s' := Step(s, ViewDeletesActions(v));
            && s'.db == s.db.(actions := s'.db.actions) && s'.tasks == s.tasks
            && (forall a :: a in s'.db.actions <==> a in s.db.actions && s.db.actions[a].op != op)
            && (forall a :: a in s'.db.actions ==> s'.db.actions[a] == s.db.actions[a])
            && v in s'.views && s'.views[v] == Emptied(s.views[v].site, op, s.views[v].guarded))
      && (s.views[v].Emptied? ==>
            var s' := Step(s, ViewDeletesOperation(v));
            if HasActions(s.db, op) then s'.db == s.db && v !in s'.views
            else s'.db == s.db.(ops := s.db.ops - {op}) && v in s'.views && s'.views[v] == Free(s.views[v].site))
  {
  }

  /** It then creates an operation and queues its task exactly if the site is there and has none. */
  lemma ViewStarts(s: System, v: nat, kind: Kind, plan: seq<Spec>)
    requires v in s.views && s.views[v].Free?
    ensures
      var site, s', x := s.views[v].site, Step(s, ViewCreates(v, kind, plan)), s.db.nextOp;
      && v !in s'.views
      && if site in s.db.sites && !HasOperation(s.db, site) then
           && s'.db.ops == s.db.ops[x := Operation(site, false)] && s'.tasks == s.tasks[x := Task(site, kind, plan, Queued, 0)]
           && s'.db.actions == s.db.actions && s'.db.sites == s.db.sites
         else s'.db == s.db && s'.tasks == s.tasks
  {
  }
}
