/** Two runs in which an operation guarantee fails, statement by statement. */
module OperationRaces {
  import opened Options
  import opened OperationTable
  import opened OperationProtocol
  import opened OperationTheorems

  const PING := Spec("find_pingable_appservers", false)

  const PING_ROW := Action(0, PING.slug, PING.recoverable, false, Unfinished)

  /** One site, one operation of the given kind in the given phase, and its action if it has one. */
  function One(kind: Kind, phase: Phase, started: bool, actions: map<nat, Action>, owner: map<nat, nat>): System {
    System(Tables({0}, map[0 := Operation(0, started)], actions, 1, if owner == map[] then 0 else 1),
           map[0 := Task(0, kind, [PING], phase, 0)], map[], owner)
  }

  /** The site's operation was taken away by a view that is about to create the next one. */
  predicate TakenAway(s: System, kind: Kind, phase: Phase) {
    && s.db.sites == {0} && s.db.ops == map[] && s.db.actions == map[] && s.db.nextOp == 1
    && s.tasks == map[0 := Task(0, kind, [PING], phase, 0)]
    && s.views == map[1 := Free(0)]
  }

  lemma Opening(kind: Kind) returns (events: seq<Event>)
    ensures After(events) == One(kind, Queued, false, map[], map[])
  {
    var e1, e2, e3 := NewSite(0), ViewFindsNone(0, 0), ViewCreates(0, kind, [PING]);
    AfterSnoc([], e1);
    AfterSnoc([e1], e2);
    AfterSnoc([e1, e2], e3);
    assert [] + [e1] == [e1] && [e1] + [e2] == [e1, e2] && [e1, e2] + [e3] == [e1, e2, e3];
    var s1 := After([e1]);
    assert s1.db.sites == {0} && s1.db.ops == map[];
    var s2 := After([e1, e2]);
    assert s2 == s1.(views := map[0 := Free(0)]);
    var s3 := After([e1, e2, e3]);
    assert CreateOperation(s2.db, 0).Some?;
    assert s3.views == map[];
    events := [e1, e2, e3];
  }

  lemma Extend(events: seq<Event>, e: Event, s: System) returns (longer: seq<Event>)
    requires Step(After(events), e) == s
    ensures After(longer) == s
  {
    AfterSnoc(events, e);
    longer := events + [e];
  }

  lemma Emptying(s: System, guarded: bool)
    requires s.views == map[1 := Holding(0, 0, guarded)]
    requires forall a :: a in s.db.actions ==> s.db.actions[a].op == 0
    ensures Step(s, ViewDeletesActions(1)) ==
              s.(db := s.db.(actions := map[]), views := map[1 := Emptied(0, 0, guarded)])
  {
    assert Step(s, ViewDeletesActions(1)) == ActionsDeletedBy(s, 1);
    assert DeleteActions(s.db, 0).actions == map[];
  }

  lemma Deleting(s: System, guarded: bool)
    requires s.views == map[1 := Emptied(0, 0, guarded)]
    requires s.db.actions == map[] && s.db.ops.Keys == {0}
    ensures Step(s, ViewDeletesOperation(1)) == s.(db := s.db.(ops := map[]), views := map[1 := Free(0)])
  {
    assert Step(s, ViewDeletesOperation(1)) == OperationDeletedBy(s, 1);
    assert s.db.ops - {0} == map[];
  }

  /** A view reads operation 0 and deletes its rows. */
  lemma TakeAway(events: seq<Event>, kind: Kind, phase: Phase, started: bool, actions: map<nat, Action>, owner: map<nat, nat>, guarded: bool)
    returns (longer: seq<Event>)
    requires After(events) == One(kind, phase, started, actions, owner)
    requires forall a :: a in actions ==> actions[a].op == 0
    requires guarded ==> HasFailed(After(events).db, 0)
    ensures TakenAway(After(longer), kind, phase)
  {
    var s := After(events);
    var s1 := s.(views := map[1 := Holding(0, 0, guarded)]);
    longer := Extend(events, ViewReads(1, 0), s.(views := map[1 := Holding(0, 0, false)]));
    if guarded {
      longer := Extend(longer, ViewChecks(1), s1);
    }
    Emptying(s1, guarded);
    longer := Extend(longer, ViewDeletesActions(1), Step(s1, ViewDeletesActions(1)));
    Deleting(After(longer), guarded);
    longer := Extend(longer, ViewDeletesOperation(1), Step(After(longer), ViewDeletesOperation(1)));
  }

  lemma Creating(s: System)
    requires 0 in s.db.sites && s.db.ops == map[] && s.views == map[1 := Free(0)]
    ensures Step(s, ViewCreates(1, Ordinary, [PING])) == CreatedBy(s, 1, Ordinary, [PING])
    ensures CreatedBy(s, 1, Ordinary, [PING]).db == s.db.(ops := map[s.db.nextOp := Operation(0, false)], nextOp := s.db.nextOp + 1)
  {
    assert CreateOperation(s.db, 0).Some?;
  }

  /** Up to the moment at which the deletion holds an operation that is not its own. */
  lemma HoldingNewer() returns (events: seq<Event>)
    ensures
      var s := After(events);
      && 0 in s.tasks && s.tasks[0].phase == EarlyHolding(1)
      && s.db.ops.Keys == {1} && s.db.actions == map[]
  {
    events := Opening(DatabaseDeletion);
    events := Extend(events, FindNoDatabase(0), One(DatabaseDeletion, EarlyOut, false, map[], map[]));
    events := TakeAway(events, DatabaseDeletion, EarlyOut, false, map[], map[], false);
    Creating(After(events));
    events := Extend(events, ViewCreates(1, Ordinary, [PING]), CreatedBy(After(events), 1, Ordinary, [PING]));
    FetchingNewer(After(events));
    events := Extend(events, EarlyFetch(0, 1), Phased(After(events), 0, EarlyHolding(1)));
  }

  lemma FetchingNewer(s: System)
    requires 0 in s.tasks && s.tasks[0].phase.EarlyOut?
    requires 1 in s.db.ops && s.db.ops[1].site == s.tasks[0].site
    ensures Step(s, EarlyFetch(0, 1)) == Phased(s, 0, EarlyHolding(1))
  {
  }

  lemma DeletingNewer(s: System)
    requires 0 in s.tasks && s.tasks[0].phase == EarlyHolding(1) && s.db.actions == map[]
    ensures 1 !in Step(s, EarlyDelete(0)).db.ops
  {
    assert !HasActions(s.db, 1);
    assert Step(s, EarlyDelete(0)) == EarlyDeleted(s, 0);
  }

  /** A database deletion on a site without a database is reset between its first two queries; it
      then fetches and deletes the operation that the reset has just created. */
  lemma StaleTaskDeletesNewer()
    ensures exists events: seq<Event>, x: nat, op: nat ::
      var s := After(events);
      && x in s.tasks && s.tasks[x].phase == EarlyHolding(op) && x < op
      && op in s.db.ops && op !in Step(s, EarlyDelete(x)).db.ops
  {
    var events := HoldingNewer();
    DeletingNewer(After(events));
    var x: nat, op: nat := 0, 1;
    assert x in After(events).tasks && After(events).tasks[x].phase == EarlyHolding(op) && x < op;
    assert op in After(events).db.ops;
  }

  lemma Adding0(s: System)
    requires s == One(SiteDeletion, Adding([]), false, map[], map[])
    ensures Step(s, Add(0)) == One(SiteDeletion, Adding([0]), false, map[0 := PING_ROW], map[0 := 0])
  {
    var s' := Added(s, 0);
    assert s'.db.actions == map[0 := PING_ROW];
    assert 0 in s'.owner && s'.owner == map[0 := 0];
    assert [] + [0] == [0];
  }

  lemma Row0(s: System, phase: Phase, row: Action)
    requires s == One(SiteDeletion, phase, true, map[0 := row], map[0 := 0]) && row.op == 0
    ensures phase == Executing([0], 0) ==>
      Step(s, StartOne(0)) == One(SiteDeletion, Running([0], 0), true, map[0 := row.(started := true)], map[0 := 0])
    ensures phase == Running([0], 0) ==> Step(s, Raise(0)) == One(SiteDeletion, Failing([0], 0), true, map[0 := row], map[0 := 0])
    ensures phase == Failing([0], 0) ==>
      Step(s, StoreFailure(0)) ==
        One(SiteDeletion, Stored([0], 0, true), true, map[0 := PING_ROW.(started := true, result := Failed)], map[0 := 0])
  {
  }

  lemma FirstActionFails() returns (events: seq<Event>)
    ensures After(events) ==
      One(SiteDeletion, Stored([0], 0, true), true, map[0 := PING_ROW.(started := true, result := Failed)], map[0 := 0])
  {
    var running := PING_ROW.(started := true);
    events := Opening(SiteDeletion);
    events := Extend(events, Fetch(0), One(SiteDeletion, Adding([]), false, map[], map[]));
    Adding0(After(events));
    events := Extend(events, Add(0), One(SiteDeletion, Adding([0]), false, map[0 := PING_ROW], map[0 := 0]));
    events := Extend(events, Start(0), One(SiteDeletion, Executing([0], 0), true, map[0 := PING_ROW], map[0 := 0]));
    Row0(After(events), Executing([0], 0), PING_ROW);
    events := Extend(events, StartOne(0), One(SiteDeletion, Running([0], 0), true, map[0 := running], map[0 := 0]));
    Row0(After(events), Running([0], 0), running);
    events := Extend(events, Raise(0), One(SiteDeletion, Failing([0], 0), true, map[0 := running], map[0 := 0]));
    Row0(After(events), Failing([0], 0), running);
    events := Extend(events, StoreFailure(0), Step(After(events), StoreFailure(0)));
  }

  /** A site deletion fails at its first action; a view that is entitled to override the failure
      removes the operation before the task gets to site.delete(), which then goes through. */
  lemma FailedDeletionRemovesSite()
    ensures exists events: seq<Event>, x: nat ::
      var s := After(events);
      && x in s.tasks && s.tasks[x].returned < |s.tasks[x].plan|
      && s.tasks[x].site in s.db.sites
      && s.tasks[x].site !in Step(s, DeleteTheSite(x, false)).db.sites
  {
    var failed := PING_ROW.(started := true, result := Failed);
    var events := FirstActionFails();
    assert After(events).db.actions[0] == failed;
    events := TakeAway(events, SiteDeletion, Stored([0], 0, true), true, map[0 := failed], map[0 := 0], true);
    assert 0 !in Step(After(events), DeleteTheSite(0, false)).db.sites;
  }
}
