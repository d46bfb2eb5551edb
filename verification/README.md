# Director: models and proofs

Director is a site hosting platform: a manager (Django, Channels, Celery) drives orchestrators on
the appservers, a balancer and a shell server.  This project models the parts of it that hold state
or exact arithmetic, in the form the source has (classes for objects that are updated in place,
loops for loops, functions for expressions), and proves what those parts promise.  `dafny verify
dfyconfig.toml` checks everything.

| files | what they model |
|---|---|
| `MonitorConsumer`, `MonitorLiveness`, `Framing`, `WatchTable`, `FileMonitor`, `MonitorConvergence` | live file monitoring, end to end: the browser's socket fanned out to every appserver, the line protocol, the monitor process and its two maps |
| `OperationTable`, `OperationProtocol`, `OperationInvariant`, `OperationTheorems`, `OperationOutcomes`, `OperationEndings`, `OperationRaces` | operations and actions: Celery tasks and views that interleave statement by statement on the same tables |
| `DocsTree`, `DocsPages`, `DocsListing`, `DocsLinks`, `DocsRewrites` | documentation pages: listing names, choosing files, rewriting links |
| `EditorTree`, `EditorTheorems`, `EditorRuns`, `EditorPane` | the site editor's file tree |
| `Domains` | domain reconciliation, the balancer list and the certbot removal list |
| `Pagination`, `HostProbing`, `DomainNames`, `SiteNames`, `MemoryUnits` | exact algorithms |
| `Paths`, `Strings`, `Seqs`, `Options` | helpers |

## What the code does that its comments and documentation do not say

Each of these is proved, with the exact condition under which the promise holds.

- **Override guards.** The third conjunct of the guards in `image_select_view` and `edit_names_view`
  is implied by the second, so the named slug never decides, although the comment says it does
  (`GuardIgnoresSlug`).  The comment is right, over all runs, about exactly the operations whose
  every recoverable action has the named slug (`GuardMeansSlugIff`): the image view's guard about
  image updates, the names view's about name changes; but each also lets the other's failed
  operation through, and a failed repair (`GuardAdmitsOtherSlug`).
- **delete_site_task** goes on to `site.delete()` when its actions failed.  Only operation rows and
  domains protect the site then, so the site vanishes in spite of the failure exactly when none of
  these stands at that moment (`SiteVanishes`).  Somebody else, a view or a database deletion, must have
  removed the failed operation in between (`VanishedDespiteFailure`), and such runs exist
  (`FailedDeletionRemovesSite`).
- **delete_database_task** without a database deletes the operation its site has when it looks again;
  when it was reset in between, that is a newer one (`StaleTaskIsolation`, `StaleTaskDeletesNewer`).
  No other statement of a stale task touches another operation's rows, although `action.save()`
  inserts a row that a view has deleted.
- **Domain names** are not unique in the schema: two tasks that look up the same new name before
  either creates it leave it on two balancer lists (`InterleavedClaims`).
- **A lost appserver** ends live monitoring on all of them as soon as a browser message is sent to it, so
  a backend that stands behind a lost one in the send loop can never be brought up to date, while every
  other live backend can (`CatchesUpIff`, `ClosesExactly`).
- **A deleted directory** leaves the watch table, with what lies below it, just if it is watched under a
  name in normal form; under "a/" it stays (`GoneDirectory`, `KernelEvent`).
- **The watch protocol** returns a path as it was sent just if it has no newline and no carriage
  return at either end (`RoundTrip`, `CarriageReturnLost`).
- **Documentation links** lead to the file they name just if they do not climb above the documentation
  directory on the way, where normalisation stops at the root, and are not on a page that was asked
  for by its absolute path (`LinkResolution`, `ClimbingLinkLost`).
- **The editor's tree** keeps its order and unique names under every event except the creation of a
  path without components, such as "." (`EventKeepsOrder`, `RunAlwaysOrdered`, `DotTwice`).
- **Pagination** promises always to list the first `num_start` and last `num_end` pages; it does for
  all pages just if both are at most `num_around + 1` (`PromiseKept`, `PromiseBroken`).
- **Validators.** `$` matches in front of a final newline, so the domain form lets `"a.b\n."` through
  as `"a.b\n"`, which the router then refuses.  The three checks fit together for exactly those inputs
  that do not end in a newline once outer whitespace and then final dots are stripped
  (`ValidatorsCompatible`, `NewlineSurvives`).  The
  pattern of the memory field accepts strings that the orchestrator cannot parse (`FormReads`, `NewlineRefused`); the
  latter are out of reach as long as the form field strips its input first.

## How the models are to be read

- The consumer is a machine whose events are the code between two scheduling points.  Every event
  may come at any time it is possible, which includes every schedule of asyncio and some more.
  Messages are named by their order of arrival, since the consumer never looks inside one.
- In the operation protocol every database call is one event, as the settings use no surrounding
  transaction.  A `save()` that updates or else inserts, and a `delete()` with its search for
  protecting rows, are one call each: what comes between their statements cannot matter, because ids
  are not used again and the database checks foreign keys itself.  The queries of a guard behind the
  first can only make the view give up, which a view may do at any time.  Operation and action ids are fresh and a task is delivered once.  A task
  or view that stops forever is a run in which its events no longer occur.
- What the kernel answers to `add_watch` is an input of the monitor process.  Its characters stand
  for the bytes of standard input.
- The classes are proved against functions, and the theorems are proved about those functions, for
  every run.  The methods of the consumer, the monitor process, the domain table and the editor pane
  are single steps of their machines.  The operation wrapper runs all actions in one call; that a
  task which nothing disturbs ends in the protocol as the wrapper ends is a theorem
  (`AloneLikeWrapper`), and so is that no interleaving leaves rows in another state (`RowsAreOutcome`).

## Model

| member | source | states |
|---|---|---|
| MonitorConsumer.Reachable | manager/director/apps/sites/consumers.py:424-561 | in every interleaving a connected consumer's queue, socket list, opener and handler fit together and every live backend's stream is a prefix-complete, at most twofold, ordered record of the browser's messages |
| MonitorConsumer.DeliveryOrder | manager/director/apps/sites/consumers.py:446-561 | once a backend's replay is over and nothing is on its way to it, it has been sent every browser message once or twice and nothing else, and the last copies came in browser order |
| MonitorConsumer.ReplayOrder | manager/director/apps/sites/consumers.py:489-496 | while the replay runs, what it has already replayed is in order even though newer messages overtake it, and the queue still holds everything |
| MonitorConsumer.SiteMonitorConsumer.constructor | manager/director/apps/sites/consumers.py:415-422 | the consumer starts in the machine's initial state |
| MonitorConsumer.SiteMonitorConsumer.Receive | manager/director/apps/sites/consumers.py:545-558 | receive() up to its first send: queue the message unless initialised, copy the socket list |
| MonitorConsumer.SiteMonitorConsumer.SendNext | manager/director/apps/sites/consumers.py:558-561 | one direct send, or the close of the consumer when that backend's connection is gone |
| MonitorConsumer.SiteMonitorConsumer.Opened | manager/director/apps/sites/consumers.py:479-492 | a new backend joins the list with nothing sent and its replay at the start |
| MonitorConsumer.SiteMonitorConsumer.ReplayNext | manager/director/apps/sites/consumers.py:491-496 | one step of the replay loop over the live queue, which sees messages appended meanwhile |
| MonitorConsumer.SiteMonitorConsumer.Finish | manager/director/apps/sites/consumers.py:446-465 | after the last appserver: the method does the machine's step; what that is to do is stated by Initialises and ClosesExactly |
| MonitorConsumer.SiteMonitorConsumer.Prune | manager/director/apps/sites/consumers.py:502-510 | a lost backend leaves the list, and the last one closes the consumer |
| MonitorLiveness.ClosesExactly | manager/director/apps/sites/consumers.py:446-561 | in every interleaving a connected consumer closes exactly when it is told to, when a send meets a lost connection, when no backend was reached, or when the last one is lost |
| MonitorLiveness.BrowserHeard | manager/director/apps/sites/consumers.py:545-561 | a message is heard exactly if it comes while the consumer is connected and its handler idle |
| MonitorLiveness.QueueIs | manager/director/apps/sites/consumers.py:554-556 | until it is initialised the queue holds every message, from then on none |
| MonitorLiveness.Initialises | manager/director/apps/sites/consumers.py:452-465 | after the last appserver a consumer with backends is connected and initialised, with the same backends, streams and messages, and its queue is empty |
| MonitorLiveness.StaysInitialised | manager/director/apps/sites/consumers.py:452-465 | it stays initialised |
| MonitorLiveness.LostByDrop | manager/director/apps/sites/consumers.py:502-510 | a backend is lost exactly when its connection drops |
| MonitorLiveness.LeavesByPrune | manager/director/apps/sites/consumers.py:502-510 | a backend leaves the list exactly when its loss is noticed |
| MonitorLiveness.GetsInitialised | manager/director/apps/sites/consumers.py:446-496 | from every connected state with a backend the consumer gets initialised by replaying and going on to the end of its list of appservers |
| MonitorLiveness.CatchesUp | manager/director/apps/sites/consumers.py:489-561 | a live backend that is not behind a lost one is brought up to date by sends and replay steps alone |
| MonitorLiveness.CatchesUpIff | manager/director/apps/sites/consumers.py:489-561 | some continuation brings a live backend up to date exactly if no lost connection stands before it in the send loop |
| MonitorLiveness.OpenedCatchesUp | manager/director/apps/sites/consumers.py:471-496 | every backend that is opened joins the list and can be brought up to date with everything the browser has said |
| Framing.LinesOfChunks | orchestrator/helpers/files-helper.py:428-432 | cutting the input anywhere and carrying the unterminated rest over gives the same lines and the same tail |
| Framing.ParseFirst | orchestrator/helpers/files-helper.py:438-471 | the first line of an encoded command parses to that command just if the path is clean |
| Framing.RoundTrip | orchestrator/orchestrator/files.py:517-533 | reading back the commands that add_watch and rm_watch wrote returns them just if no path has a newline or a carriage return at an end; nothing is left over |
| Framing.CarriageReturnLost | orchestrator/helpers/files-helper.py:440 | for instance the path "a\r" is read back as "a" |
| Strings.StripIs | orchestrator/helpers/files-helper.py:440 | stripping takes characters of the set off both ends until none is left there |
| WatchTable.SelectsIff | orchestrator/helpers/files-helper.py:404-406 | the commonpath test selects exactly what lies component-wise at or below the name, and nothing if the name is not in normal form |
| WatchTable.RemovedAll | orchestrator/helpers/files-helper.py:403-413 | the loop over a copy of the descriptors, in any order, removes exactly the selected entries |
| WatchTable.AddKeeps | orchestrator/helpers/files-helper.py:452-453 | adding keeps every live descriptor's name a key, and keeps the maps inverse if the kernel gives a name one descriptor |
| WatchTable.RemoveKeeps | orchestrator/helpers/files-helper.py:403-413 | removing keeps both properties |
| WatchTable.RemovalIsSubtree | orchestrator/helpers/files-helper.py:403-413 | removal deletes exactly the watches at or below the name if the name is in normal form and none otherwise, keeps all others as they were, and the empty name empties both maps |
| FileMonitor.ChunksDoNotMatter | orchestrator/helpers/files-helper.py:428-471 | however standard input is cut into reads, the process ends where it would on the lines of the whole stream, with the unterminated tail in its buffer |
| FileMonitor.TableInvariant | orchestrator/helpers/files-helper.py:400-513 | after any mix of reads and kernel events every live descriptor's name is a key, and the two maps are inverse if the kernel gives each watched name one descriptor |
| FileMonitor.GoneDirectory | orchestrator/helpers/files-helper.py:403-486 | a watched directory that is moved or deleted leaves both maps with everything below it if its name is in normal form, all others stay as they were and the process goes on; it crashes exactly when absolute and relative names are mixed |
| FileMonitor.KernelEvent | orchestrator/helpers/files-helper.py:474-486 | that, over every run; an event for an unknown descriptor or of another kind changes nothing |
| FileMonitor.LineEnds | orchestrator/helpers/files-helper.py:434-471 | exactly which lines end the process, and how |
| FileMonitor.LineEffect | orchestrator/helpers/files-helper.py:445-465 | what "+", "-" and an empty line do to the maps of a process that goes on |
| FileMonitor.FileMonitorProcess.constructor | orchestrator/helpers/files-helper.py:398-401 | the process starts with an empty buffer and empty maps |
| FileMonitor.FileMonitorProcess.Pop | orchestrator/helpers/files-helper.py:412-413 | exactly the given descriptor and name leave the maps |
| FileMonitor.FileMonitorProcess.RemoveWatchAndSubwatches | orchestrator/helpers/files-helper.py:403-413 | the loop leaves the table without the subtree, or the process crashes when absolute and relative names are mixed |
| FileMonitor.FileMonitorProcess.HandleEvent | orchestrator/helpers/files-helper.py:474-486 | one kernel event, as far as it concerns the table |
| FileMonitor.FileMonitorProcess.ReadStdin | orchestrator/helpers/files-helper.py:428-471 | one read runs the lines it completes and keeps the rest |
| FileMonitor.FileMonitorProcess.Dispatch | orchestrator/helpers/files-helper.py:434-471 | one line: blank, add, remove, quit, or an input error that ends the process |
| FileMonitor.Find | orchestrator/helpers/files-helper.py:430 | the position of the first newline |
| MonitorConvergence.WatchedByLastDecision | orchestrator/orchestrator/consumers/files.py:41-50 | a directory is watched just if it can be and the last frame that settles it, whatever its path, sets it |
| MonitorConvergence.FoldByNet | orchestrator/orchestrator/consumers/files.py:41-50 | the same for plain commands: the last one that adds the directory, or removes it or something above it, decides |
| MonitorConvergence.OrderedStreamsAgree | manager/director/apps/sites/consumers.py:489-496 | a stream with duplicates and overtaking, whose last copies are in order, asks for the same watch set as the browser's own sequence |
| MonitorConvergence.TableFollows | orchestrator/helpers/files-helper.py:445-465 | whatever lines it has read, a process that is still running has exactly the keys they ask for, with inverse maps |
| MonitorConvergence.MonitorConverges | orchestrator/orchestrator/consumers/files.py:34-50 | convergence end to end, for all paths: in every interleaving and for every chunking, a quiet backend's process that is still running watches exactly what the browser's frames ask for |
| MonitorConvergence.MonitorLives | orchestrator/helpers/files-helper.py:403-471 | if all paths survive the line protocol and are all absolute or all relative, the process is still running, and the frames ask for what the commands themselves say |
| OperationTable.GuardIgnoresSlug | manager/director/apps/sites/views/sites.py:257-269 | the override guard is equivalent to is_failure_user_recoverable, whatever slug it names |
| OperationTable.OperationWrapper.constructor | manager/director/apps/sites/helpers.py:21-24 | a wrapper starts without actions |
| OperationTable.OperationWrapper.AddAction | manager/director/apps/sites/helpers.py:60-67 | creates one unstarted row behind all others and appends it |
| OperationTable.OperationWrapper.RunAction | manager/director/apps/sites/helpers.py:104-139 | starts the row, saves it for every item, and stores True just if the callback returns |
| OperationTable.OperationWrapper.RunNext | manager/director/apps/sites/helpers.py:87-100 | one turn of the loop: the action succeeds, or its failure is stored and the operation has ended |
| OperationTable.OperationWrapper.ExecuteOperation | manager/director/apps/sites/helpers.py:76-102 | the actions before the first that raises are True, that one is False, the later ones untouched, no other operation's row changes, and the result says whether all returned |
| OperationInvariant.FailedMeansStored | manager/director/apps/sites/models.py:814-816 | in every reachable state has_failed holds only for an operation whose task has stored its failure |
| OperationInvariant.Reachable | manager/director/apps/sites/helpers.py:142-171 | the invariant of rows, tasks and views holds after every interleaving of tasks, guards, overrides and resets; what becomes of ended operations is stated by ClearedMeansGone and SucceedsAlone |
| OperationTheorems.OneOperationPerSite | manager/director/apps/sites/models.py:802 | at most one operation for a site, every action's operation exists, every operation's site exists |
| OperationTheorems.ResultsInOrder | manager/director/apps/sites/helpers.py:87-102 | in id order whatever has started or finished comes after successes only |
| OperationTheorems.StoredForever | manager/director/apps/sites/helpers.py:90-100 | a task that has stored a failure stays at that point through every further event |
| OperationTheorems.StoredTaskIsSilent | manager/director/apps/sites/helpers.py:98-102 | a stored result=False is the task's last write to operation and action rows |
| OperationTheorems.OverrideIsSafe | manager/director/apps/sites/views/edit.py:73-131 | from the moment a view is past a guard that demands a failure, whatever runs in between, the task of the operation it removes writes no row |
| OperationTheorems.StaleTaskIsolation | manager/director/apps/sites/tasks.py:272-276 | a task changes rows of another operation exactly when it is a database deletion that found no database, has fetched its site's operation, that is a newer one, and it still stands without actions |
| OperationTheorems.SiteVanishes | manager/director/apps/sites/tasks.py:415-457 | at site.delete(), reached whether or not the actions succeeded, the site row goes exactly when it is there and neither a domain nor any operation of the site stands at that moment |
| OperationTheorems.TakenAwayAt | manager/director/apps/sites/views/sites.py:358-361 | a failed operation whose row is gone was taken away at one point of the run, after the failure was stored, by a view that held it or by another task, a database deletion that had fetched it |
| OperationTheorems.VanishedDespiteFailure | manager/director/apps/sites/tasks.py:415-457 | over a whole run: if the site goes in spite of a failed action, somebody else took the deletion's operation away earlier, after the failure was stored, and no operation of the site stands when it goes |
| OperationTheorems.OnlyDeletionRemovesSites | manager/director/apps/sites/tasks.py:457 | no other statement removes a site row |
| OperationTheorems.RemovedAt | manager/director/apps/sites/tasks.py:415-421 | in every run an operation whose row is gone lost it at one of the run's events |
| OperationTheorems.OnlyTheseRemoveOperations | manager/director/apps/sites/views/sites.py:358-361 | an operation row goes only by its task's end, a view that held it, or the early exit of a database deletion that had fetched it |
| OperationTheorems.ProtectedSite | manager/director/apps/sites/models.py:802 | while a failed deletion's operation row stands, no event removes its site |
| OperationOutcomes.NamedReachable | manager/director/apps/sites/helpers.py:60-67 | in every interleaving each action row carries the slug and the recoverable flag of a declared action of its operation's task |
| OperationOutcomes.RowsAreOutcome | manager/director/apps/sites/helpers.py:87-102 | in every interleaving the rows left of an operation whose task has stored a failure or run to its end are exactly as execute_operation leaves them |
| OperationOutcomes.AloneLikeWrapper | manager/director/apps/sites/helpers.py:76-102 | for all callbacks a task that nothing disturbs, from whatever state it is queued in, gets by its own events to the result that ExecuteOperation states |
| OperationOutcomes.OneFailure | manager/director/apps/sites/models.py:814-816 | of a failed operation exactly one action has failed, the one at which its task stopped |
| OperationOutcomes.GuardAdmits | manager/director/apps/sites/views/sites.py:257-269 | a passed guard means that the one failed action is recoverable, and that it is the named one just if its declared slug is |
| OperationOutcomes.FailingRun | manager/director/apps/sites/helpers.py:91-100 | for any declared action there is a run in which that action fails |
| OperationOutcomes.GuardMeansSlugIff | manager/director/apps/sites/views/sites.py:257-269 | over all runs of an operation with given actions a passed guard means that the named action failed, just if every recoverable action has the named slug |
| OperationOutcomes.GuardAdmitsOtherSlug | manager/director/apps/sites/views/sites.py:257-269 | the image view's promise holds for image updates and the names view's for name changes; there are runs in which each lets the other's operation, or a repair, through after another failure |
| OperationEndings.ClearedMeansGone | manager/director/apps/sites/helpers.py:167-169 | in every reachable state neither the row nor any action is left of an operation whose task has ended well |
| OperationEndings.SucceedsAlone | manager/director/apps/sites/helpers.py:142-171 | a task that nothing disturbs and whose callbacks all return ends with its operation and actions gone and its site free for another operation, and no other operation's row changed |
| OperationEndings.DeletesSiteAlone | manager/director/apps/sites/tasks.py:415-457 | a site deletion that nothing disturbs, whose callbacks return and whose domains are gone, takes the site away |
| OperationEndings.EarlyExitAlone | manager/director/apps/sites/tasks.py:272-276 | a database deletion without a database that nothing disturbs deletes its own operation and nothing else |
| OperationEndings.EarlyMeansDatabase | manager/director/apps/sites/tasks.py:272-276 | only a database deletion takes the early exit |
| OperationEndings.OwnEvents | manager/director/apps/sites/helpers.py:76-171 | what a task runs of its own, apart from the early exit, changes no row of another operation |
| OperationEndings.GoneTaskIsSilent | manager/director/apps/sites/helpers.py:76-171 | once its operation's row is gone a task writes no row, except by the early exit |
| OperationEndings.GoneTaskRaises | manager/director/apps/sites/helpers.py:76-171 | and every statement of its that needs the row raises |
| OperationEndings.NothingToFetch | manager/director/apps/sites/tasks.py:274-275 | a database deletion whose site has no operation left raises |
| OperationEndings.GuardDecides | manager/director/apps/sites/views/edit.py:73-90 | a guard keeps the operation it has read exactly if that has failed |
| OperationEndings.FindsNone | manager/director/apps/sites/views/sites.py:355-362 | a view goes on without deleting exactly if its site has no operation |
| OperationEndings.ViewDeletes | manager/director/apps/sites/views/sites.py:358-361 | a view deletes all actions of its operation and no others, then the operation, unless actions have come in again |
| OperationEndings.ViewStarts | manager/director/apps/sites/operations.py:26-31 | a view creates an operation and queues its task exactly if its site is there and has none |
| OperationRaces.StaleTaskDeletesNewer | manager/director/apps/sites/tasks.py:272-276 | a run, statement by statement, in which a database deletion deletes the operation a reset has just created |
| OperationRaces.FailedDeletionRemovesSite | manager/director/apps/sites/tasks.py:421-457 | a run in which a site deletion fails at its first action and the site row goes away all the same |
| Domains.ClaimIs | manager/director/apps/sites/tasks.py:100-114 | the loop over the requested names, duplicates included, claims every available row once, ignores the others and creates one row for each unknown name |
| Domains.ReconcileIs | manager/director/apps/sites/tasks.py:100-116 | afterwards the site owns exactly the requested names that are neither blocked nor another site's, all active; dropped names are ownerless and deleted; all other rows are untouched; the table's invariants hold |
| Domains.DeletedStayOwnerless | manager/director/apps/sites/tasks.py:116 | reconciliation keeps deleted rows without a site |
| Domains.CheckIsExact | manager/director/apps/sites/views/edit.py:106-111 | in every table the view's pre-check passes exactly when the task will ignore no requested name other than deleted rows that still have another site; without such rows, which reconciliation never leaves, exactly when it ignores none, and then the site ends with what was asked for |
| Domains.HistoryOk | manager/director/apps/sites/models.py:624-625 | after any sequence of reconciliations names are unique and ownerless rows are deleted or blocked |
| Domains.DomainPartition | manager/director/apps/sites/actions.py:355-365 | every known name is then on exactly one list: one site's balancer list, or the removal list |
| Domains.FetchThenClaim | manager/director/apps/sites/tasks.py:101-114 | fetching and deciding with nothing in between is one iteration of the loop |
| Domains.InterleavedClaims | manager/director/apps/sites/tasks.py:101-114 | when two sites' tasks both fetch a name first, names stay unique just if it was known; a new one lands on both balancer lists |
| Domains.DomainTable.constructor | manager/director/apps/sites/models.py:613-625 | a table holds the given rows |
| Domains.DomainTable.Get | manager/director/apps/sites/tasks.py:102 | finds the row of a name, or none when the name is unknown |
| Domains.DomainTable.ClaimDomain | manager/director/apps/sites/tasks.py:101-114 | one iteration of the loop |
| Domains.DomainTable.ChangeSiteDomains | manager/director/apps/sites/tasks.py:92-118 | the loop and the bulk update are the reconciliation above |
| DocsTree.WalkDescribes | manager/director/apps/docs/utils.py:342 | every entry of the walk describes a directory of the tree |
| DocsTree.WalkTopDown | manager/director/apps/docs/utils.py:340-342 | every directory's parent comes before it |
| DocsTree.WalkComplete | manager/director/apps/docs/utils.py:342 | every directory of the tree has an entry |
| DocsPages.DirectoryNames | manager/director/apps/docs/utils.py:350-370 | the names yielded for one directory |
| DocsPages.IterPageNames | manager/director/apps/docs/utils.py:334-370 | the generator with its growing seen_files set yields the names of Pages |
| DocsPages.SeenIsExistence | manager/director/apps/docs/utils.py:362-365 | because the walk is top-down, the seen_files test equals a test whether the directory's .md file exists in the tree |
| DocsPages.ChooseVisible | manager/director/apps/docs/utils.py:208-250 | which of the two candidates a name of visible components selects |
| DocsPages.EveryPageListed | manager/director/apps/docs/utils.py:350-370 | every Markdown file other than a README is listed |
| DocsPages.PageNamesRoundTrip | manager/director/apps/docs/utils.py:208-250 | looking up a listed name selects exactly the file it was listed for, so no name is listed for two files |
| DocsListing.WalkOnce | manager/director/apps/docs/utils.py:340-342 | every directory is walked once |
| DocsListing.EachPageOnce | manager/director/apps/docs/utils.py:334-370 | no page name is listed twice, and no two pages have one file, if every directory holds a file name once |
| DocsListing.ListedNames | manager/director/apps/docs/utils.py:350-370 | an index file is listed under its directory's name unless there is a file of that name, every other file under its name without the extension |
| DocsListing.LookupSelects | manager/director/apps/docs/utils.py:152-250 | whatever is asked for, a lookup selects nothing but Markdown files of the tree other than READMEs, and nothing for names with a component that starts with a dot |
| DocsLinks.NormBelow | manager/director/apps/docs/utils.py:136 | normalising below the root agrees with normalising below a directory exactly until the path climbs above it |
| DocsLinks.SourceDirectory | manager/director/apps/docs/utils.py:220-224 | for every page name that selects a file: a relative name makes links resolve from the directory of the page's own source file, index page or not; an absolute one from that directory's whole path, taken as if it began at the documentation directory |
| DocsLinks.LinkResolution | manager/director/apps/docs/utils.py:101-147 | for every page name and whole link, looking up the rewritten relative Markdown link selects the file the link names exactly when the name is relative and the link does not climb above the documentation directory |
| DocsLinks.ClimbingLinkLost | manager/director/apps/docs/utils.py:136 | every documentation tree has such links: from any page next to it, a Markdown file of the top directory named by going up and coming back is not what the lookup selects |
| DocsLinks.RewriteIdempotent | manager/director/apps/docs/utils.py:101-149 | every rewritten internal link is absolute, and rewriting it again on any page changes nothing |
| DocsRewrites.RewriteParts | manager/director/apps/docs/utils.py:109-149 | scheme, host, query and fragment are kept; mail links, links to other hosts and links without a path are returned as they are, and any other link gets an absolute path |
| DocsRewrites.MarkdownIff | manager/director/apps/docs/utils.py:114-117 | which paths count as Markdown files |
| DocsRewrites.PageIff | manager/director/apps/docs/utils.py:114-115 | which paths count as pages |
| DocsRewrites.AbsoluteLinks | manager/director/apps/docs/utils.py:113-126 | what becomes of absolute links: a Markdown file's loses its extension, a page's gets one final slash, any other stays |
| DocsRewrites.RelativeLinks | manager/director/apps/docs/utils.py:128-141 | a relative link becomes the place it names from the base page's directory, with a final slash just for pages and Markdown files |
| DocsRewrites.PlaceOfLink | manager/director/apps/docs/utils.py:128-141 | below the documentation directory a rewritten relative link of any kind is the place it names, followed from the page's own source file, exactly if it does not climb above that directory |
| EditorTree.FollowElemInverse | manager/director/static/js/site-editor/files-pane.js:124-188 | followPath and getElemPath are mutually inverse in an ordered tree, up to the canonical spelling of the path |
| EditorTheorems.InsertOrdered | manager/director/static/js/site-editor/files-pane.js:213-246 | inserting in front of the first item that follows keeps a list in order with unique names; FoldersFirst says what that order is |
| EditorTheorems.FoldersFirst | manager/director/static/js/site-editor/files-pane.js:220-269 | in every ordered list folders come before files, and within either kind a name is the beginning of the next or has the smaller character where they first differ |
| EditorTheorems.PutBelowOrdered | manager/director/static/js/site-editor/files-pane.js:240-246 | a tree with one container's items replaced is in order just if the new items are |
| EditorTheorems.RemoveShows | manager/director/static/js/site-editor/files-pane.js:81-84 | removal takes away what is shown at and below the path and nothing else |
| EditorTheorems.CreateShows | manager/director/static/js/site-editor/files-pane.js:192-246 | creation replaces what is at the path if there is a parent folder, clears everything below it, and only removes when there is none |
| EditorTheorems.MarkShows | manager/director/static/js/site-editor/files-pane.js:273-287 | an update changes one item's mark |
| EditorTheorems.ClearShows | manager/director/static/js/site-editor/files-pane.js:919-947 | opening or closing a folder takes away everything below it |
| EditorRuns.EventEffect | manager/director/static/js/site-editor/files-pane.js:68-91 | what the tree shows at every path after each kind of event |
| EditorRuns.EventKeepsOrder | manager/director/static/js/site-editor/files-pane.js:74-91 | an event keeps the whole tree in order exactly when it is not the creation of a path without components |
| EditorRuns.RunAlwaysOrdered | manager/director/static/js/site-editor/files-pane.js:74-91 | over a run the tree is in order after every event exactly when no such creation occurs |
| EditorRuns.RunFoldersFirst | manager/director/static/js/site-editor/files-pane.js:213-269 | that holds in every children list of every tree that a run reaches |
| EditorRuns.LookupsInverse | manager/director/static/js/site-editor/files-pane.js:121-188 | the two lookups are mutually inverse in every tree such a run reaches |
| EditorRuns.DotTwice | manager/director/static/js/site-editor/files-pane.js:192-246 | two creations of "." leave two items of one name that no path finds |
| EditorRuns.ShowDetermines | manager/director/static/js/site-editor/files-pane.js:213-246 | an ordered tree is determined by what it shows, so the order of arrival leaves no trace |
| EditorRuns.DuplicateHarmless | manager/director/static/js/site-editor/files-pane.js:193-199 | an event delivered twice leaves the tree one delivery leaves |
| EditorRuns.UnrelatedCommute | manager/director/static/js/site-editor/files-pane.js:193-199 | events on unrelated paths give the same tree in either order |
| EditorPane.FilesPane.constructor | manager/director/static/js/site-editor/files-pane.js:7-9 | the pane starts with an empty tree |
| EditorPane.FilesPane.ChildNamed | manager/director/static/js/site-editor/files-pane.js:133-141 | the search among one element's children finds the first of the name |
| EditorPane.FilesPane.FindPath | manager/director/static/js/site-editor/files-pane.js:124-149 | the walk of followPath, with its test for folders, finds what Follow defines |
| EditorPane.FilesPane.PlaceFor | manager/director/static/js/site-editor/files-pane.js:216-238 | the search for the item to insert before |
| EditorPane.FilesPane.Remove | manager/director/static/js/site-editor/files-pane.js:81-84 | look up and remove |
| EditorPane.FilesPane.Add | manager/director/static/js/site-editor/files-pane.js:192-246 | addItem: remove the old item, find the parent, find the place, insert |
| EditorPane.FilesPane.Handle | manager/director/static/js/site-editor/files-pane.js:68-91 | the event switch does what the event calls for, and keeps the tree in order with the one exception |
| Pagination.FirstLinks | manager/director/utils/pagination.py:63-74 | the links up to the pages around the current one |
| Pagination.LinksBefore | manager/director/utils/pagination.py:63-77 | all entries before the current page |
| Pagination.LinksAfter | manager/director/utils/pagination.py:81-96 | all entries after it |
| Pagination.Paginate | manager/director/utils/pagination.py:59-98 | for any requested page the loops give the current page's items and the reference list of links: every visible page and one spacer for every run of hidden ones |
| Pagination.PagesPartitionItems | manager/director/utils/pagination.py:98 | the pages put together are the whole list, every page but the last is full, and none is empty unless the list is |
| Pagination.ListedIffVisible | manager/director/utils/pagination.py:67-91 | a page is listed exactly when it is the current one, near it, or among the first or last |
| Pagination.LabelsIncrease | manager/director/utils/pagination.py:67-91 | page labels strictly increase |
| Pagination.GapHasSpacer | manager/director/utils/pagination.py:70-86 | adjacent page links are consecutive pages |
| Pagination.SpacerIffHidden | manager/director/utils/pagination.py:70-86 | each side has one spacer exactly when a page there is hidden |
| Pagination.LinksLead | manager/director/utils/pagination.py:63-96 | page numbers lead to their pages, "previous" and "next" to the neighbours of the current page, and nowhere where there is none or the current page is to have no link |
| Pagination.EndsOfList | manager/director/utils/pagination.py:63-96 | "previous" stands in front just if there is a previous page or it is always to be shown, and so does "next" at the end |
| Pagination.NumbersShown | manager/director/utils/pagination.py:63-91 | which page numbers are shown, by the settings |
| Pagination.PromiseKept | manager/director/utils/pagination.py:31-36 | the documented "always shown" holds for all pages exactly when num_start and num_end are at most num_around + 1 |
| Pagination.PromiseBroken | manager/director/utils/pagination.py:31-32 | for instance with num_start 5, page 4 of 20 is not listed on page 1 |
| HostProbing.OpenTerminalConnection | manager/director/apps/sites/consumers.py:319-343 | the loop tries hosts in cyclic order up to the first that can be reached, at most once around |
| HostProbing.ConnectWebsock | shell/shell/server.py:401-431 | the shell server's copy meets the same specification |
| HostProbing.ProbingCorrect | manager/director/apps/sites/consumers.py:323-343 | that means: no host twice, giving up just when none can be reached, and otherwise the first reachable host in cyclic order |
| HostProbing.TriesInRing | shell/shell/server.py:401-431 | the first host tried is the hash modulo their number and each next one its successor in the ring, as long as tries fail |
| HostProbing.ProbingDetermined | shell/shell/server.py:401-431 | both copies make the same tries with the same outcome |
| MemoryUnits.ConvertBy | orchestrator/orchestrator/docker/conversions.py:37-60 | the loop over any table of suffixes returns at the first that fits |
| DomainNames.HostIsNormal | manager/director/apps/sites/forms.py:177-193 | a host name is its own normal form |
| DomainNames.HostIffChars | manager/director/apps/sites/forms.py:192 | host names are exactly the strings of lower-case letters, digits, dashes and dots with a dot, a letter or digit in front, and a letter or digit behind every dash and dot |
| DomainNames.OrchestratorIffChars | orchestrator/orchestrator/configs/nginx.py:53-58 | the orchestrator asks the same except of the first character |
| DomainNames.FormTakes | manager/director/apps/sites/forms.py:174-195 | the form takes every host name in any case, with spaces around it and dots behind it, and makes it the host name, except the platform's own domain and what lies below it |
| DomainNames.RouterIff | router/router/nginx.py:26-27 | the router's test by characters |
| DomainNames.AcceptedNewline | manager/director/apps/sites/forms.py:174-195 | which inputs the form accepts with a newline left in the domain |
| DomainNames.ValidatorsCompatible | manager/director/apps/sites/forms.py:174-195 | an accepted domain passes the orchestrator's check; it passes the router's and is a fixed point just if the input does not end in a newline once outer whitespace and then final dots are stripped; the model's validator refuses it just if a newline is left behind a reserved name |
| DomainNames.HostAtRouter | router/router/nginx.py:26-27 | a host name passes the router's strict-subset test |
| DomainNames.NewlineSurvives | manager/director/apps/sites/forms.py:177 | an input that the form accepts with a newline left in it, and that the router then refuses |
| SiteNames.DirectoriesApart | orchestrator/orchestrator/files.py:67-70 | no site's directory is or lies inside another site's |
| SiteNames.NamesSpelled | orchestrator/orchestrator/files.py:67-70 | a site's directory, service and terminal container are spelled with the same digits, padded to four |
| SiteNames.TerminalNameUnambiguous | orchestrator/orchestrator/terminal.py:34 | a terminal container's name occurs in another's only for the same site |
| SiteNames.ServiceNameAmbiguity | orchestrator/orchestrator/docker/services.py:61-62 | a service name occurs in another exactly for the same site or for a number that only adds digits to one of at least four digits |
| SiteNames.ServiceNameClash | orchestrator/orchestrator/docker/services.py:46-47 | for instance sites 1000 and 10000 |
| SiteNames.ServiceLookupExact | orchestrator/orchestrator/docker/services.py:45-58 | the second, exact filter makes the lookup find the service asked for and no other |
| SiteNames.TerminalLookupExact | orchestrator/orchestrator/docker/containers.py:14-22 | among terminal containers the name filter alone does |
| MemoryUnits.ConvertMemoryLimit | orchestrator/orchestrator/docker/conversions.py:37-60 | the loop over the table returns at the first suffix that fits |
| MemoryUnits.FirstIsLongest | orchestrator/orchestrator/docker/conversions.py:37-57 | the first suffix that fits is the longest that does |
| MemoryUnits.PrintedReads | orchestrator/orchestrator/docker/conversions.py:56-60 | a printed number with any spacing and unit is read as that many units |
| MemoryUnits.SuffixReads | orchestrator/orchestrator/docker/conversions.py:38-60 | what each of the fifteen suffixes is worth |
| MemoryUnits.SignReads | orchestrator/orchestrator/docker/conversions.py:56-60 | a sign in front of the number is read as one |
| MemoryUnits.OnlyInTable | manager/director/apps/sites/forms.py:317-324 | the table holds nothing else, and the form's pattern admits exactly KiB, MiB, GiB, KB, MB and GB |
| MemoryUnits.FormReads | manager/director/apps/sites/forms.py:317-324 | what the form's pattern accepts can be read, except exactly a final newline that follows no digit |
| MemoryUnits.NewlineRefused | orchestrator/orchestrator/docker/conversions.py:56-60 | for instance "1KB" with a newline behind it |

## Left out

- HTTP, websockets, Docker, subprocesses, chroot, SQL and templates: they appear only as inputs that succeed or fail, or as appends.
- SiteMonitorConsumer after it is closed: the properties concern backends that stay live; the messages the backends send back to the browser are not modelled.
- What the monitor process prints (listings and event output), and its exit on input that is not UTF-8.
- MonitorConverges: speaks of a process that is still running (MonitorLives says when it surely is), and assumes that the kernel gives each watched name one descriptor and that the set of directories that can be watched stays the same; directory aliases and directories recreated between events break the first.
- GuardMeansSlugIff: the queries of one guard read one state of the tables; in the protocol only the first is an event, and the others can only make the view give up.
- GuardAdmitsOtherSlug: the declared actions are those of a dynamic site without a database in production, and of an image update that leaves run.sh as it is; other sites have other lists, for which GuardMeansSlugIff gives the answer.
- The two kinds of kernel event that remove watches are one input; all others leave the table alone and are not inputs.
- OperationProtocol: callbacks are reduced to how many items they yield and whether they return; what actions do on appservers and balancers is not modelled, and neither is redelivery of a Celery task.
- HistoryOk: reconciliations follow one another; two at a time are the subject of InterleavedClaims, for one name each.
- Documentation trees with symbolic links, hidden names or directories that end in ".md"; Markdown rendering, the HTML cache, urlsplit and urlunsplit, and the prefix that makes rewritten links relative to the docs application.
- The editor's elements as page objects: the tree is a value, so identity of elements, the open marks, reopening of folders (prevOpenFolders) and the emptying of the tree at a new connection are not captured; an element is named by its position.
- The editor's error event, menus, drag and drop, and toggling a path that is not there, which raises in the browser and changes nothing in the model.
- EachPageOnce: for trees whose directories hold a file name once, as a file system's do.
- The editor compares names by UTF-16 code units; a character of a name stands for one.
- HTML text nodes: getElemPath reads rendered text for parents and raw text for the element itself; both are taken as the item's name.
- Paginate: Django's Paginator is modelled by its documented page counts and indices; numeric parameters are natural numbers.
- ValidatorsCompatible: lower-casing is that of ASCII; length limits and the rule about tjhsst.edu domains for non-superusers are not modelled, and neither is the orchestrator's second pattern, for addresses.
- MemoryUnits: digits and spaces are those of ASCII; the branch for integers returns its argument.
- Tokens and encryption, the SSH session's buffer, terminal sockets, migrations, admin pages, email, resource-limit serialisation and status pages.
