/** The operation protocol: Celery tasks that run action pipelines, and views that start, override
    and reset operations, all against the same tables.

    There is no surrounding transaction, so the database calls of different tasks and views
    interleave freely, each an event of its own.  save() with its update-or-insert and delete() with
    its check for protecting rows count as one call each: the keys of the schema see to that.  A task or view that stops
    forever is a run in which its events no longer occur. */
module OperationProtocol {
  import opened Options
  import opened OperationTable

  datatype Kind = Ordinary | SiteDeletion | DatabaseDeletion

  /** An action as the body of a task declares it. */
  datatype Spec = Spec(slug: string, recoverable: bool)

  datatype Phase =
    | Queued
    | EarlyOut                              // delete_database_task found no database
    | EarlyHolding(op: nat)                 // and has fetched its site's operation
    | Adding(ids: seq<nat>)                 // inside the with block
    | Executing(ids: seq<nat>, k: nat)      // between actions; k of them have returned
    | Running(ids: seq<nat>, k: nat)        // inside the callback of action k
    | Failing(ids: seq<nat>, k: nat)        // action k raised; the failure is not stored yet
    | Stored(ids: seq<nat>, k: nat, deleteNext: bool)  // failure stored, execute_operation returned
    | Clearing                              // everything returned; the action rows are deleted
    | Cleared(deleteNext: bool)             // and the operation row too
    | Crashed                               // an exception left the task

  /** A task is named by the id of the operation it was queued for. */
  datatype Task = Task(site: nat, kind: Kind, plan: seq<Spec>, phase: Phase, returned: nat)

  /** What a view holds between its statements: the operation it read, and whether it got past a
      guard that demands a failure; then that operation without actions; then no operation. */
  datatype View =
    | Holding(site: nat, op: nat, guarded: bool)
    | Emptied(site: nat, op: nat, guarded: bool)
    | Free(site: nat)

  datatype System = System(
    db: Tables,
    tasks: map<nat, Task>,
    views: map<nat, View>,
    owner: map<nat, nat>)   // which operation each action id was created for

  datatype Event =
    | NewSite(site: nat)
    // views
    | ViewReads(v: nat, op: nat)
    | ViewChecks(v: nat)
    | ViewFindsNone(v: nat, site: nat)
    | ViewDeletesActions(v: nat)
    | ViewDeletesOperation(v: nat)
    | ViewCreates(v: nat, kind: Kind, plan: seq<Spec>)
    // tasks
    | Fetch(x: nat)
    | FindNoDatabase(x: nat)
    | EarlyFetch(x: nat, op: nat)
    | EarlyFetchNone(x: nat)
    | EarlyDelete(x: nat)
    | Add(x: nat)
    | Start(x: nat)
    | StartOne(x: nat)
    | Item(x: nat)
    | Raise(x: nat)
    | Succeed(x: nat)
    | StoreFailure(x: nat)
    | ClearActions(x: nat)
    | ClearOperation(x: nat)
    | DeleteTheSite(x: nat, hasDomains: bool)

  predicate TaskEvent(e: Event) {
    !e.NewSite? && !e.ViewReads? && !e.ViewChecks? && !e.ViewFindsNone? && !e.ViewDeletesActions?
    && !e.ViewDeletesOperation? && !e.ViewCreates?
  }

  function Phased(s: System, x: nat, p: Phase): System
    requires x in s.tasks
  {
    s.(tasks := s.tasks[x := s.tasks[x].(phase := p)])
  }

  /** A statement of task x: on success the task goes on, on an exception it goes elsewhere. */
  function Attempt(s: System, x: nat, db: Option<Tables>, onSuccess: Phase, onError: Phase): System
    requires x in s.tasks
  {
    match db
    case Some(db') => Phased(s.(db := db'), x, onSuccess)
    case None => Phased(s, x, onError)
  }

  /** The row of action k as the task holds it in memory once it has started it. */
  function Row(s: System, x: nat, k: nat, result: Result): Action
    requires x in s.tasks && k < |s.tasks[x].plan|
  {
    Action(x, s.tasks[x].plan[k].slug, s.tasks[x].plan[k].recoverable, true, result)
  }

  predicate Enabled(s: System, e: Event) {
    if TaskEvent(e) then
      e.x in s.tasks &&
      var t := s.tasks[e.x];
      match e
      case Fetch(_) => t.phase.Queued?
      case FindNoDatabase(_) => t.phase.Queued? && t.kind.DatabaseDeletion? && e.x in s.db.ops
      case EarlyFetch(_, op) => t.phase.EarlyOut? && op in s.db.ops && s.db.ops[op].site == t.site
      case EarlyFetchNone(_) => t.phase.EarlyOut?
      case EarlyDelete(_) => t.phase.EarlyHolding?
      case Add(_) => t.phase.Adding? && |t.phase.ids| < |t.plan|
      case Start(_) => t.phase.Adding? && |t.phase.ids| == |t.plan|
      case StartOne(_) => t.phase.Executing? && AtAction(s, e.x)
      case Item(_) => t.phase.Running? && AtAction(s, e.x)
      case Raise(_) => t.phase.Running? && AtAction(s, e.x)
      case Succeed(_) => t.phase.Running? && AtAction(s, e.x)
      case StoreFailure(_) => t.phase.Failing? && AtAction(s, e.x)
      case ClearActions(_) => t.phase.Executing? && t.phase.k == |t.phase.ids|
      case ClearOperation(_) => t.phase.Clearing?
      case DeleteTheSite(_, _) => (t.phase.Stored? || t.phase.Cleared?) && t.phase.deleteNext
      case _ => false
    else
      match e
      case NewSite(site) => site !in s.db.sites
      case ViewReads(v, op) => v !in s.views && op in s.db.ops
      case ViewChecks(v) => v in s.views && s.views[v].Holding? && !s.views[v].guarded
      case ViewFindsNone(v, site) => v !in s.views
      case ViewDeletesActions(v) => v in s.views && s.views[v].Holding?
      case ViewDeletesOperation(v) => v in s.views && s.views[v].Emptied?
      case ViewCreates(v, _, _) => v in s.views && s.views[v].Free?
      case _ => false
  }

  // ---- the statements of a task ----

  /** site.operation.delete(), by the id that was fetched. */
  ghost function EarlyDeleted(s: System, x: nat): System
    requires x in s.tasks && s.tasks[x].phase.EarlyHolding?
  {
    Attempt(s, x, DeleteOperation(s.db, s.tasks[x].phase.op), Cleared(false), Crashed)
  }

  function Added(s: System, x: nat): System
    requires x in s.tasks && s.tasks[x].phase.Adding? && |s.tasks[x].phase.ids| < |s.tasks[x].plan|
  {
    var ids := s.tasks[x].phase.ids;
    var spec := s.tasks[x].plan[|ids|];
    var s' := Attempt(s, x, CreateAction(s.db, x, spec.slug, spec.recoverable), Adding(ids + [s.db.nextAction]), Crashed);
    if x in s.db.ops then s'.(owner := s.owner[s.db.nextAction := x]) else s'
  }

  function Started(s: System, x: nat): System
    requires x in s.tasks && s.tasks[x].phase.Adding?
  {
    Attempt(s, x, StartOperation(s.db, x), Executing(s.tasks[x].phase.ids, 0), Crashed)
  }

  /** The task has an action at hand. */
  predicate AtAction(s: System, x: nat) {
    && x in s.tasks
    && (s.tasks[x].phase.Executing? || s.tasks[x].phase.Running? || s.tasks[x].phase.Failing?)
    && s.tasks[x].phase.k < |s.tasks[x].phase.ids| == |s.tasks[x].plan|
  }

  function ActionStarted(s: System, x: nat): System
    requires AtAction(s, x)
  {
    var p := s.tasks[x].phase;
    Attempt(s, x, StartAction(s.db, p.ids[p.k]), Running(p.ids, p.k), Failing(p.ids, p.k))
  }

  /** A full save of the current action's row. */
  function Saved(s: System, x: nat, result: Result, onSuccess: Phase, onError: Phase): System
    requires AtAction(s, x)
  {
    var p := s.tasks[x].phase;
    Attempt(s, x, SaveAction(s.db, p.ids[p.k], Row(s, x, p.k, result)), onSuccess, onError)
  }

  function ItemSaved(s: System, x: nat): System
    requires AtAction(s, x)
  {
    var p := s.tasks[x].phase;
    Saved(s, x, Unfinished, Running(p.ids, p.k), Failing(p.ids, p.k))
  }

  function SuccessSaved(s: System, x: nat): System
    requires AtAction(s, x)
  {
    var p := s.tasks[x].phase;
    var s' := Saved(s, x, Succeeded, Executing(p.ids, p.k + 1), Failing(p.ids, p.k));
    if x in s.db.ops then s'.(tasks := s'.tasks[x := s'.tasks[x].(returned := p.k + 1)]) else s'
  }

  function FailureSaved(s: System, x: nat): System
    requires AtAction(s, x)
  {
    var p := s.tasks[x].phase;
    Saved(s, x, Failed, Stored(p.ids, p.k, s.tasks[x].kind.SiteDeletion?), Crashed)
  }

  ghost function OperationCleared(s: System, x: nat): System
    requires x in s.tasks
  {
    Attempt(s, x, DeleteOperation(s.db, x), Cleared(s.tasks[x].kind.SiteDeletion?), Crashed)
  }

  /** site.delete() at the end of delete_site_task, whatever execute_operation returned. */
  ghost function SiteDeleted(s: System, x: nat, hasDomains: bool): System
    requires x in s.tasks && (s.tasks[x].phase.Stored? || s.tasks[x].phase.Cleared?)
  {
    var after := s.tasks[x].phase.(deleteNext := false);
    Attempt(s, x, DeleteSite(s.db, s.tasks[x].site, hasDomains), after, after)
  }

  ghost function TaskStep(s: System, e: Event): System
    requires TaskEvent(e) && Enabled(s, e)
  {
    var x, p := e.x, s.tasks[e.x].phase;
    match e
    case Fetch(_) => Phased(s, x, if x in s.db.ops then Adding([]) else Crashed)
    case FindNoDatabase(_) => Phased(s, x, EarlyOut)
    case EarlyFetch(_, op) => Phased(s, x, EarlyHolding(op))
    case EarlyFetchNone(_) => if HasOperation(s.db, s.tasks[x].site) then s else Phased(s, x, Crashed)
    case EarlyDelete(_) => EarlyDeleted(s, x)
    case Add(_) => Added(s, x)
    case Start(_) => Started(s, x)
    case StartOne(_) => ActionStarted(s, x)
    case Item(_) => ItemSaved(s, x)
    case Raise(_) => Phased(s, x, Failing(p.ids, p.k))
    case Succeed(_) => SuccessSaved(s, x)
    case StoreFailure(_) => FailureSaved(s, x)
    case ClearActions(_) => Phased(s.(db := DeleteActions(s.db, x)), x, Clearing)
    case ClearOperation(_) => OperationCleared(s, x)
    case DeleteTheSite(_, hasDomains) => SiteDeleted(s, x, hasDomains)
    case _ => s
  }

  // ---- the statements of a view ----

  function ViewRead(s: System, v: nat, op: nat): System
    requires op in s.db.ops
  {
    s.(views := s.views[v := Holding(s.db.ops[op].site, op, false)])
  }

  /** The query behind has_failed, on the operation the view has read.  Further conditions of a guard
      can only make the view give up as well. */
  ghost function ViewChecked(s: System, v: nat): System
    requires v in s.views && s.views[v].Holding?
  {
    var w := s.views[v];
    if HasFailed(s.db, w.op) then s.(views := s.views[v := Holding(w.site, w.op, true)])
    else s.(views := s.views - {v})
  }

  function ActionsDeletedBy(s: System, v: nat): System
    requires v in s.views && s.views[v].Holding?
  {
    var w := s.views[v];
    s.(db := DeleteActions(s.db, w.op), views := s.views[v := Emptied(w.site, w.op, w.guarded)])
  }

  ghost function OperationDeletedBy(s: System, v: nat): System
    requires v in s.views && s.views[v].Emptied?
  {
    match DeleteOperation(s.db, s.views[v].op)
    case Some(db') => s.(db := db', views := s.views[v := Free(s.views[v].site)])
    case None => s.(views := s.views - {v})
  }

  ghost function CreatedBy(s: System, v: nat, kind: Kind, plan: seq<Spec>): System
    requires v in s.views && s.views[v].Free?
  {
    var site := s.views[v].site;
    match CreateOperation(s.db, site)
    case Some(db') => s.(db := db', views := s.views - {v},
                         tasks := s.tasks[s.db.nextOp := Task(site, kind, plan, Queued, 0)])
    case None => s.(views := s.views - {v})
  }

  ghost function ViewStep(s: System, e: Event): System
    requires !TaskEvent(e) && Enabled(s, e)
  {
    match e
    case NewSite(site) => s.(db := s.db.(sites := s.db.sites + {site}))
    case ViewReads(v, op) => ViewRead(s, v, op)
    case ViewChecks(v) => ViewChecked(s, v)
    case ViewFindsNone(v, site) => if HasOperation(s.db, site) then s else s.(views := s.views[v := Free(site)])
    case ViewDeletesActions(v) => ActionsDeletedBy(s, v)
    case ViewDeletesOperation(v) => OperationDeletedBy(s, v)
    case ViewCreates(v, kind, plan) => CreatedBy(s, v, kind, plan)
    case _ => s
  }

  /** The effect of one event; an event that is not enabled changes nothing. */
  ghost function Step(s: System, e: Event): System {
    if !Enabled(s, e) then s
    else if TaskEvent(e) then TaskStep(s, e)
    else ViewStep(s, e)
  }

  function Initial(): System {
    System(Tables({}, map[], map[], 0, 0), map[], map[], map[])
  }

  ghost function After(events: seq<Event>): System {
    if events == [] then Initial()
    else Step(After(events[..|events| - 1]), events[|events| - 1])
  }

  // ---- the invariant ----

  function Ids(p: Phase): seq<nat> {
    match p
    case Adding(ids) => ids
    case Executing(ids, _) => ids
    case Running(ids, _) => ids
    case Failing(ids, _) => ids
    case Stored(ids, _, _) => ids
    case _ => []
  }

  predicate Done(row: Action, result: Result) {
    row.started && row.result == result
  }

  /** What the row of a task's j-th action holds, if there is such a row. */
  predicate RowFits(row: Action, p: Phase, j: nat) {
    match p
    case Adding(_) => !row.started && row.result.Unfinished?
    case Executing(_, k) => if j < k then Done(row, Succeeded) else !row.started && row.result.Unfinished?
    case Running(_, k) =>
      if j < k then Done(row, Succeeded) else row.result.Unfinished? && (j == k <==> row.started)
    case Failing(_, k) =>
      if j < k then Done(row, Succeeded) else row.result.Unfinished? && (j == k <==> row.started)
    case Stored(_, k, _) =>
      if j < k then Done(row, Succeeded)
      else if j == k then Done(row, Failed)
      else !row.started && row.result.Unfinished?
    case _ => false
  }

  /** A task's own bookkeeping. */
  ghost predicate TaskOk(s: System, x: nat)
    requires x in s.tasks
  {
    var t := s.tasks[x];
    var ids := Ids(t.phase);
    && (forall i, j :: 0 <= i < j < |ids| ==> ids[i] < ids[j])
    && (forall i :: 0 <= i < |ids| ==> ids[i] in s.owner && s.owner[ids[i]] == x)
    && (match t.phase
        case Adding(_) => |ids| <= |t.plan| && t.returned == 0
        case Executing(_, k) => |ids| == |t.plan| && k <= |ids| && t.returned == k
        case Running(_, k) => |ids| == |t.plan| && k < |ids| && t.returned == k
        case Failing(_, k) => |ids| == |t.plan| && k < |ids| && t.returned == k
        case Stored(_, k, d) => |ids| == |t.plan| && k < |ids| && t.returned == k && (d ==> t.kind.SiteDeletion?)
        case Clearing => t.returned == |t.plan|
        case Cleared(d) => d ==> t.returned == |t.plan| && t.kind.SiteDeletion?
        case EarlyHolding(op) =>
          t.returned == 0 && x <= op < s.db.nextOp && (op in s.db.ops ==> s.db.ops[op].site == t.site)
        case Crashed => x !in s.db.ops
        case _ => t.returned == 0)
  }

  /** The row of an action is where its id says, in a state that goes with the task's phase. */
  ghost predicate Fits(a: nat, row: Action, p: Phase) {
    exists j :: 0 <= j < |Ids(p)| && Ids(p)[j] == a && RowFits(row, p, j)
  }

  /** An action row belongs to the task of its operation. */
  ghost predicate ActionOk(s: System, a: nat)
    requires a in s.db.actions
  {
    var row := s.db.actions[a];
    && a in s.owner && s.owner[a] == row.op
    && row.op in s.tasks
    && Fits(a, row, s.tasks[row.op].phase)
  }

  ghost predicate ViewOk(s: System, v: nat)
    requires v in s.views
  {
    var w := s.views[v];
    (w.Holding? || w.Emptied?) ==>
      && w.op in s.tasks
      && (w.guarded ==> s.tasks[w.op].phase.Stored?)
  }

  ghost predicate TasksAndOperations(s: System) {
    && (forall o :: o in s.db.ops ==> o in s.tasks && s.tasks[o].site == s.db.ops[o].site)
    && (forall x :: x in s.tasks ==> x < s.db.nextOp)
    && (forall x, o :: x in s.tasks && o in s.db.ops && s.tasks[x].site == s.db.ops[o].site ==> x <= o)
    && (forall a :: a in s.owner ==> a < s.db.nextAction)
  }

  ghost predicate Inv(s: System) {
    && Consistent(s.db)
    && TasksAndOperations(s)
    && (forall x :: x in s.tasks ==> TaskOk(s, x))
    && (forall a :: a in s.db.actions ==> ActionOk(s, a))
    && (forall v :: v in s.views ==> ViewOk(s, v))
  }
}
