/** The database rows of sites, operations and actions, and the statements the manager runs on
    them.  A statement that violates a constraint raises, which is modelled as None. */
module OperationTable {

  import opened Options

  /** Action.result: None, True or False. */
  datatype Result = Unfinished | Succeeded | Failed

  datatype Operation = Operation(site: nat, started: bool)

  datatype Action = Action(op: nat, slug: string, recoverable: bool, started: bool, result: Result)

  datatype Tables = Tables(
    sites: set<nat>,
    ops: map<nat, Operation>,
    actions: map<nat, Action>,
    nextOp: nat,
    nextAction: nat)

  ghost predicate HasOperation(db: Tables, site: nat) {
    exists o :: o in db.ops && db.ops[o].site == site
  }

  ghost predicate HasActions(db: Tables, op: nat) {
    exists a :: a in db.actions && db.actions[a].op == op
  }

  /** Operation.objects.create(): the site must exist and have no operation yet. */
  ghost function CreateOperation(db: Tables, site: nat): Option<Tables> {
    if site !in db.sites || HasOperation(db, site) then None
    else Some(db.(ops := db.ops[db.nextOp := Operation(site, false)], nextOp := db.nextOp + 1))
  }

  /** Action.objects.create(): the operation must exist. */
  function CreateAction(db: Tables, op: nat, slug: string, recoverable: bool): Option<Tables> {
    if op !in db.ops then None
    else Some(db.(actions := db.actions[db.nextAction := Action(op, slug, recoverable, false, Unfinished)],
                  nextAction := db.nextAction + 1))
  }

  /** save(update_fields=["started_time"]) on an operation: raises when the row is gone. */
  function StartOperation(db: Tables, op: nat): Option<Tables> {
    if op !in db.ops then None
    else Some(db.(ops := db.ops[op := db.ops[op].(started := true)]))
  }

  /** save(update_fields=["started_time"]) on an action: raises when the row is gone. */
  function StartAction(db: Tables, a: nat): Option<Tables> {
    if a !in db.actions then None
    else Some(db.(actions := db.actions[a := db.actions[a].(started := true)]))
  }

  /** save() on an action: an update, or an insert when the row is gone; either way its operation
      must exist. */
  function SaveAction(db: Tables, a: nat, row: Action): Option<Tables> {
    if row.op !in db.ops then None
    else Some(db.(actions := db.actions[a := row]))
  }

  /** operation.action_set.all().delete() */
  function DeleteActions(db: Tables, op: nat): Tables {
    db.(actions := map a | a in db.actions && db.actions[a].op != op :: db.actions[a])
  }

  /** operation.delete(): protected by the actions that refer to it. */
  ghost function DeleteOperation(db: Tables, op: nat): Option<Tables> {
    if HasActions(db, op) then None else Some(db.(ops := db.ops - {op}))
  }

  /** site.delete(): protected by an operation, and by domains. */
  ghost function DeleteSite(db: Tables, site: nat, hasDomains: bool): Option<Tables> {
    if hasDomains || HasOperation(db, site) then None else Some(db.(sites := db.sites - {site}))
  }

  /** The constraints of the schema, and ids that are never handed out again. */
  ghost predicate Consistent(db: Tables) {
    && (forall o :: o in db.ops ==> o < db.nextOp && db.ops[o].site in db.sites)
    && (forall o, p :: o in db.ops && p in db.ops && db.ops[o].site == db.ops[p].site ==> o == p)
    && (forall a :: a in db.actions ==> a < db.nextAction && db.actions[a].op in db.ops)
  }

  // ---- properties of an operation ----

  ghost predicate HasFailed(db: Tables, op: nat) {
    exists a :: a in db.actions && db.actions[a].op == op && db.actions[a].result.Failed?
  }

  ghost predicate FailureUserRecoverable(db: Tables, op: nat) {
    HasFailed(db, op) &&
    !(exists a :: a in db.actions && db.actions[a].op == op && db.actions[a].result.Failed? && !db.actions[a].recoverable)
  }

  /** The override guard of image_select_view and edit_names_view, with their excluded slug. */
  ghost predicate OverrideGuard(db: Tables, op: nat, slug: string) {
    && HasFailed(db, op)
    && FailureUserRecoverable(db, op)
    && !(exists a :: a in db.actions && db.actions[a].op == op && db.actions[a].result.Failed?
                     && !db.actions[a].recoverable && db.actions[a].slug != slug)
  }

  /** The slug named in the guard never decides: the guard is the recoverability test alone, so
      the two views accept the same operations. */
  lemma GuardIgnoresSlug(db: Tables, op: nat, slug: string)
    ensures OverrideGuard(db, op, slug) <==> FailureUserRecoverable(db, op)
  {
    if FailureUserRecoverable(db, op) {
      assert forall a :: a in db.actions && db.actions[a].op == op && db.actions[a].result.Failed? ==> db.actions[a].recoverable;
    }
  }

  /** What the comment above the guard promises: the action that failed is the one named. */
  ghost predicate OnlySlugFailed(db: Tables, op: nat, slug: string) {
    forall a :: a in db.actions && db.actions[a].op == op && db.actions[a].result.Failed? ==> db.actions[a].slug == slug
  }

  // ---- one operation, left alone ----

  /** What an action's callback does: how many items it produces, and whether it then returns. */
  datatype Callback = Callback(items: nat, completes: bool)

  /** The number of leading actions that return. */
  function Returned(cs: seq<Callback>): (k: nat)
    ensures k <= |cs|
    ensures forall i :: 0 <= i < k ==> cs[i].completes
    ensures k < |cs| ==> !cs[k].completes
  {
    if cs == [] || !cs[0].completes then 0 else 1 + Returned(cs[1..])
  }

  /** What becomes of the row of action i when exactly the first k actions return. */
  function Outcome(row: Action, i: nat, k: nat): Action {
    if i < k then row.(started := true, result := Succeeded)
    else if i == k then row.(started := true, result := Failed)
    else row
  }

  class OperationWrapper {
    const operation: nat
    var db: Tables
    var actions: seq<nat>

    /** The wrapper's actions are the operation's unstarted rows, in id order. */
    ghost predicate Ready()
      reads this
    {
      && Consistent(db)
      && operation in db.ops
      && (forall i, j :: 0 <= i < j < |actions| ==> actions[i] < actions[j])
      && (forall i :: 0 <= i < |actions| ==>
            && actions[i] in db.actions
            && db.actions[actions[i]].op == operation
            && !db.actions[actions[i]].started && db.actions[actions[i]].result.Unfinished?)
      && (forall a :: a in db.actions && db.actions[a].op == operation ==> a in actions)
    }

    constructor (operation: nat, db: Tables)
      requires Consistent(db) && operation in db.ops && !HasActions(db, operation)
      ensures Ready() && this.operation == operation && this.db == db && actions == []
    {
      this.operation, this.db, this.actions := operation, db, [];
    }

    method AddAction(slug: string, recoverable: bool)
      requires Ready()
      modifies this
      ensures Ready()
      ensures actions == old(actions) + [old(db.nextAction)]
      ensures Some(db) == CreateAction(old(db), operation, slug, recoverable)
    {
      actions := actions + [db.nextAction];
      db := CreateAction(db, operation, slug, recoverable).value;
    }

    /** run_action(): start, save once for each item, then the result. */
    method RunAction(a: nat, callback: Callback) returns (ok: bool)
      requires operation in db.ops && a in db.actions && db.actions[a].op == operation
      requires db.actions[a].result.Unfinished?
      modifies `db
      ensures ok == callback.completes
      ensures db == old(db).(actions := old(db.actions)[a :=
                old(db.actions[a]).(started := true, result := if ok then Succeeded else Unfinished)])
    {
      db := StartAction(db, a).value;
      var row := db.actions[a];
      for i := 0 to callback.items
        invariant db == old(db).(actions := old(db.actions)[a := row])
      {
        db := SaveAction(db, a, row).value;
      }
      if callback.completes {
        db := SaveAction(db, a, row.(result := Succeeded)).value;
      }
      ok := callback.completes;
    }

    ghost predicate OwnRows(was: map<nat, Action>)
      reads this
    {
      && (forall i, j :: 0 <= i < j < |actions| ==> actions[i] < actions[j])
      && (forall i :: 0 <= i < |actions| ==> actions[i] in was && was[actions[i]].op == operation)
    }

    /** All rows once the first k actions have returned. */
    ghost predicate Progress(was: map<nat, Action>, now: map<nat, Action>, k: nat)
      reads this
    {
      && now.Keys == was.Keys
      && (forall a :: a in was && was[a].op != operation ==> now[a] == was[a])
      && (forall i :: 0 <= i < |actions| ==>
            actions[i] in was && now[actions[i]] == if i < k then Outcome(was[actions[i]], i, k) else was[actions[i]])
    }

    /** All rows once the operation is through. */
    ghost predicate Ended(was: map<nat, Action>, now: map<nat, Action>, k: nat)
      reads this
    {
      && now.Keys == was.Keys
      && (forall a :: a in was && was[a].op != operation ==> now[a] == was[a])
      && (forall i :: 0 <= i < |actions| ==> actions[i] in was && now[actions[i]] == Outcome(was[actions[i]], i, k))
    }

    lemma ProgressStep(was: map<nat, Action>, now: map<nat, Action>, k: nat)
      requires OwnRows(was) && k < |actions| && Progress(was, now, k)
      ensures Progress(was, now[actions[k] := was[actions[k]].(started := true, result := Succeeded)], k + 1)
      ensures Ended(was, now[actions[k] := was[actions[k]].(started := true, result := Failed)], k)
    {
    }

    lemma ProgressDone(was: map<nat, Action>, now: map<nat, Action>)
      requires Progress(was, now, |actions|)
      ensures Ended(was, now, |actions|)
    {
    }

    /** One turn of the loop: run the action, and store its failure if it raises. */
    method RunNext(k: nat, callback: Callback, ghost was: map<nat, Action>) returns (done: bool)
      requires OwnRows(was) && k < |actions| && Progress(was, db.actions, k) && operation in db.ops
      requires was[actions[k]].result.Unfinished?
      modifies `db
      ensures done == callback.completes
      ensures db == old(db).(actions := db.actions)
      ensures if done then Progress(was, db.actions, k + 1) else Ended(was, db.actions, k)
    {
      ghost var now := db.actions;
      var a := actions[k];
      ProgressStep(was, now, k);
      done := RunAction(a, callback);
      if !done {
        db := SaveAction(db, a, db.actions[a].(result := Failed)).value;
        assert db.actions == now[a := was[a].(started := true, result := Failed)];
      }
    }

    /** execute_operation(): the actions before the first one that raises succeed, that one is
        stored as failed, the later ones never start, and no other row changes. */
    method ExecuteOperation(callbacks: seq<Callback>) returns (ok: bool)
      requires Ready() && |callbacks| == |actions|
      modifies `db
      ensures ok <==> Returned(callbacks) == |actions|
      ensures db.ops == old(db.ops)[operation := old(db.ops[operation]).(started := true)]
      ensures db.sites == old(db.sites) && db.nextOp == old(db.nextOp) && db.nextAction == old(db.nextAction)
      ensures Ended(old(db.actions), db.actions, Returned(callbacks))
    {
      ghost var was := db.actions;
      assert forall i :: 0 <= i < |actions| ==> was[actions[i]].result.Unfinished?;
      db := StartOperation(db, operation).value;
      ghost var started := db;
      for k := 0 to |actions|
        invariant k <= Returned(callbacks)
        invariant db == started.(actions := db.actions)
        invariant Progress(was, db.actions, k)
      {
        var done := RunNext(k, callbacks[k], was);
        if !done {
          return false;
        }
      }
      ProgressDone(was, db.actions);
      ok := true;
    }
  }
}
