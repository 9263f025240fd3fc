# Models of mushroomdb's hard parts

mushroomdb is a graph database whose edges are derived by rules. This project models the
parts of its repository where a fast, stateful or concurrent program has to agree with
something simple, and proves the agreement for every input and every run. There are four
groups.

- **Incremental derivation.** The association suite derives edges by a full product and
  again by one-node deltas over a replayed history; the hand-rolled adapters keep the same
  edges by chunked ingest loops and retract-and-add updates. `Predicates`, `Derivation`,
  `History`, `Multihop`, `HandRolled`, `HandRolledRuns`.
- **A replicated view.** The explorer's canvas keeps a partial copy of a server graph, fed by
  expansions and a stream of mutation events. `EdgeIds`, `Records`, `Canvas`,
  `CanvasEffects`, `Store`, `Classify`, `LiveView`, `RelatedLoss`, `Resync`.
- **Concurrent protocols.** `MapPool`, `ResyncGate`, `WatchClient`, `Transactions`,
  `DiskWatch`, `DurableWrite`. An asynchronous program is cut at its awaits (or at each system
  call); the lemmas quantify over every sequence of the resulting steps.
- **Two readers.** The Cypher highlighter (`Cypher`, `CypherReadings`, `CypherHtml`) and the installer's tar
  reader (`Tarball`), each against an independent definition of what it reads.

Objects that the source updates in place are classes; each method is proved against a
function on the object's abstract value, and the theorems are about those functions. Random
draws, schedulers, replies and clocks are arbitrary choices.

`dafny verify dfyconfig.toml` checks everything.

## What holds only under a condition

Several promises turn out to need a condition. Each is proved with the condition and shown to
fail without it.

- An edge id names one edge if and only if no name in it contains a bar (`IdNamesOneEdge`).
- Edges at a root are classified into plain objects. With bar-free names that completes if and only
  if no edge at the root has a type that every object inherits, such as `constructor`: then
  `addNeighbor` finds something that is no list and throws, and the root is drawn without edges
  (`ThrowsIffInherited`, `InheritedTypeThrows`, `ExpandSimulates`).
- The canvas always agrees with the server on typed edges between expanded nodes. On edges typed
  `related` drawing a typed edge can erase another that the server still has. Beside a server that
  does not change, the canvas agrees on all edges over every run if and only if no `related` edge
  between nodes that can be expanded has a typed edge the other way round, or the same way by a
  type that is no array index; array indices are enumerated, and so drawn, first
  (`EveryRunAgrees`, `TotalIffHarmless`, `ErasedForGood`).
- An inserted edge that is not drawn leaves its visible ends dirty, until one of them is expanded
  or deleted, or its details are fetched, which clears the mark without fetching the edge
  (`LiveEdgeIsDrawnOrMarked`, `InsertedEdgeLeavesTrace`, `DetailsClearMark`).
- After changes no event announced, a resync draws every typed edge that is missing and corrects
  every provenance, but it removes nothing: the canvas is right again if and only if it showed no
  typed edge the server has lost (`ResyncRepairsIffNothingStale`).
- Live events can never add a node if and only if every dirty key is visible. Only `markDirty` of
  a node that has been deleted meanwhile makes a hidden key dirty, which the harvest of a query
  can do after its await (`NodesNeverGrowIff`, `DirtyHiddenIff`, `HarvestRaceAddsNode`).
- At rest a resync request was dropped if and only if the last run threw with a request queued
  behind it; the explorer's run catches its own errors (`RequestsAreServedUnlessThrown`,
  `RestMeansServedInFull`).
- A finished transaction handle stays finished if and only if no commit is still in flight; a
  late `busy` reply even reopens it (`FinishedIsPermanentIff`, `FinishedCanReopen`).
- An open transaction handle means that nothing was committed unless a commit was answered, by
  something between client and server, before the server had it: the probe then finds the
  transaction still there and the commit arrives later (`ReachableIsSafe`,
  `LateCommitOnOpenHandle`).
- A rollback that returns means that nothing was committed, if no commit is started before it
  returns, exactly unless such an earlier commit is outstanding. With an overlapping commit, the
  404 that the rollback takes for success can mean that the commit won. The documentation of the
  expiry error and of `rollback` reads as if it could not (`RollbackIsTrueIffAlone`,
  `OverlappingCommitWins`).
- An open `WatchClient` has exactly one of a live socket and a pending timer if and only if no
  `onReconnecting` callback has thrown without closing it; after such a throw it never connects
  again (`StrandedIff`, `StrandedIsFinal`, `NeverStranded`).
- Without inodes the backup worker's two agreeing looks vouch for what was read between them if
  and only if no log was put in place meanwhile, which a writer that places the snapshot first
  guarantees and one that replaces the log first does not (`UnixReadsAreOneGeneration`,
  `LooksVouchIffLogLeftAlone`, `LogFirstDefeatsLooksWithoutInodes`).
- A durable write that returned Ok survives a crash on Unix; elsewhere the directory is not
  synced and the rename can be lost (`OkSurvivesOnUnix`, `OkCanBeLostElsewhere`).
- The early break of the replay is right on every day if and only if the log is in day order
  (`BreakIsRightIffInOrder`).
- The one-pass `multihop` is the counting definition if and only if at least one edge type and
  at least one source are asked for (`OnePassIsTheCount`, `PassIsTheCountIff`).
- The benchmark runs the naive variant and then the batched one on the same node list. The
  first run writes the updates into the shared dictionaries, so the second finds them already
  applied: it reports the same edges, no retraction and no addition (`NaiveThenBatched`).
- The tar reader returns the top-level file if and only if the first entry it selects carries
  no directory in the prefix field, which it does not read (`ReadsTopLevelIff`,
  `NestedFileIsTaken`).

## Model

| member | source | states |
|---|---|---|
| `EdgeIds.IdNamesOneEdge` | ui/src/store.ts:95-97 | the id identifies the edge if and only if none of the three names contains a bar |
| `EdgeIds.BarFreeIdIsUnique` | ui/src/store.ts:95-97 | an edge with bar-free names shares its id with no other edge, whatever names the other has |
| `EdgeIds.Colliding` | ui/src/store.ts:95-97 | any edge with a bar in a name has another edge of the same id |
| `EdgeIds.IdSpelled` | ui/src/store.ts:95-97 | the id spells type, source and destination in this order, a bar between each two |
| `Records.IndicesAscending` | ui/src/store.ts:136 | enumerated array indices ascend by value |
| `Records.IndicesComeFirst` | ui/src/store.ts:136 | no name precedes an array index in the enumeration |
| `Records.FirstNameLeads` | ui/src/store.ts:136 | the name added first precedes every other name that is no array index |
| `Records.IndicesAreNumerals` | ui/src/store.ts:136 | array indices are exactly the numerals of 0 to 2^32 - 2 |
| `Records.InheritedNames` | ui/src/classify.ts:258 | names that are and that are not inherited |
| `Canvas.ApplyKeeps` | ui/src/store.ts:257-291 | every event keeps: ids match their edges, endpoints and expanded roots are nodes, a valid selection stays or becomes empty |
| `Canvas.DeleteNodeKeeps` | ui/src/store.ts:426-439 | deleting a node leaves no dangling edge, root or selection |
| `Canvas.FromNeighborhoodKeeps` | ui/src/store.ts:108-128 | a neighbourhood keeps the same invariant, touches no edge, and leaves the root drawn and in need of edges |
| `Canvas.MergeKeeps` | ui/src/store.ts:130-149 | merging a root's typed neighbours keeps the invariant and marks exactly that root expanded |
| `Canvas.MergeQueryGraphKeeps` | ui/src/store.ts:151-182 | a query result keeps the invariant, only adds nodes and changes nothing else |
| `Canvas.DropKeeps` | ui/src/store.ts:441-460 | dropping the legacy edges of a pair keeps the invariant, the selection included |
| `Canvas.LiveEventsNeverAddNodes` | ui/src/live.ts:129-152 | if every dirty key is visible, no stream of live events ever adds a node |
| `Canvas.NodesNeverGrowIff` | ui/src/live.ts:129-152 | no stream of live events can ever add a node if and only if every dirty key is visible |
| `Canvas.StaleDirtyKeyAddsNode` | ui/src/store.ts:370-390 | an insertion event adds an absent node exactly when its key is dirty |
| `Canvas.EveryRunKeeps` | ui/src/store.ts:99-460 | over every run of all store operations: ids match their edges, endpoints and expanded roots are nodes, a valid selection stays or becomes empty |
| `Canvas.DirtyHiddenIff` | ui/src/store.ts:253-255 | an operation makes a hidden key dirty if and only if it is a mark of an absent node |
| `Canvas.RunsKeepDirtyVisible` | ui/src/store.ts:253-255 | over every run that marks only visible keys, no later stream of live events adds a node |
| `Canvas.HarvestRaceAddsNode` | ui/src/query-result.ts:146-181 | a run of the client, a harvested node deleted before it is marked, after which an insertion event adds a node that was not on the canvas |
| `CanvasEffects.EventMarks` | ui/src/store.ts:257-291 | a key is dirty after an event exactly if it was and was not deleted, or is visible and the event is about its properties or a rule |
| `CanvasEffects.LagMarks` | ui/src/store.ts:293-295 | a lag marks exactly the visible nodes |
| `CanvasEffects.EventNodes` | ui/src/store.ts:370-390 | which nodes an event adds, removes and relabels, and no others |
| `CanvasEffects.EventEdges` | ui/src/store.ts:404-439 | which edges an event draws, of unknown provenance, and removes; every other edge stays as it is |
| `CanvasEffects.EventReady` | ui/src/store.ts:426-439 | only the deletion of a node makes it unexpanded |
| `CanvasEffects.SelectionFollows` | ui/src/store.ts:426-460 | an event gives a selection up exactly when what it names goes |
| `CanvasEffects.QueryGraphReading` | ui/src/store.ts:151-182 | the nodes a query draws: the keys its rows give, or without a `key` column the texts in harvested columns |
| `CanvasEffects.LastLabelWins` | ui/src/store.ts:151-182 | a key ends under the label of the last row that gives one for it |
| `CanvasEffects.NoLabelNoChange` | ui/src/store.ts:342-353 | without one, a drawn node keeps its label and a new one has none |
| `CanvasEffects.HarvestDraws` | ui/src/store.ts:161-182 | harvested cells: no dot in the column's name, neither `label` nor `depth`, a text that is not empty; no label is touched |
| `CanvasEffects.NeighborhoodDraws` | ui/src/store.ts:108-124 | a neighbourhood draws the root and the keys of its rows, and only the root stops being dirty and expanded |
| `Store.GraphStore.FromNeighborhood` | ui/src/store.ts:108-124 | the object's new state is the canvas function of the old one |
| `Store.GraphStore.MergeNeighborhoodWithEdges` | ui/src/store.ts:130-149 | the buckets are merged in the order of `Object.entries`: array indices ascending, then names as they were added |
| `Store.GraphStore.MergeQueryGraph` | ui/src/store.ts:151-182 | key rows, or harvested cells without a `key` column, are upserted row by row |
| `Store.GraphStore.Apply` | ui/src/store.ts:257-291 | the dispatch and its handlers have exactly the specified effect on all five fields |
| `Store.GraphStore.OnNodeDeleted` | ui/src/store.ts:426-439 | the loop over the edges removes exactly those at the node and clears a selection among them |
| `Store.GraphStore.EdgeReferences` | ui/src/store.ts:383-390 | the search answers whether some edge touches the key |
| `Store.GraphStore.MarkDirty` | ui/src/store.ts:253-255 | the key becomes dirty whether or not it is visible |
| `Store.ApplyLiveEvent` | ui/src/live.ts:129-152 | an edge is drawn only between expanded nodes, otherwise visible ends become dirty |
| `CanvasEffects.LiveEdgeIsDrawnOrMarked` | ui/src/live.ts:129-152 | an inserted edge is drawn exactly between two expanded nodes; otherwise exactly its visible ends become dirty; nothing else changes |
| `Classify.AddNeighbor` | ui/src/classify.ts:253-266 | throws exactly for an inherited name that is no bucket yet; otherwise exactly one listing is added and none is lost |
| `Classify.ClassifyFromEdges` | ui/src/classify.ts:180-211 | throws exactly if some turn of the loop does; otherwise returns the specified scan, its provenance strictly increasing by id |
| `Classify.ThrowsIffInherited` | ui/src/classify.ts:253-266 | with bar-free names the classification completes if and only if no reported edge at the root has an inherited type |
| `Classify.InheritedTypeThrows` | ui/src/classify.ts:258-263 | one edge of an inherited type at the root makes it throw |
| `Classify.SortIncreasing` | ui/src/classify.ts:209 | sorting flags with distinct ids gives strict order |
| `Classify.ScannedOnce` | ui/src/classify.ts:186-198 | no id is flagged twice |
| `Classify.ClassificationIsExact` | ui/src/classify.ts:180-211 | with bar-free names the records of a classification that completes list exactly the reported edges at the root, a loop once |
| `Classify.FlagsAreExact` | ui/src/classify.ts:186-209 | in a classification that completes every provenance flag is a reported one and every reported edge at the root has one |
| `Classify.SetFlagsEffect` | ui/src/expand.ts:119-133 | applying the flags changes no edge but its provenance, and gives each flagged edge one of its flags |
| `Classify.FillMissingNodeInfo` | ui/src/expand.ts:135-160 | whatever order the calls settle in, exactly the root and its unlabelled neighbours that were answered get their label and stop being dirty |
| `Classify.ExpandLabels` | ui/src/expand.ts:135-160 | the label every node has after an expansion: the answered one for the root and for the nodes joined to it that had none, otherwise the one it had; exactly those answered stop being dirty |
| `Classify.ExpandNode` | ui/src/expand.ts:42-160 | one expansion at depth 1, node details included, has the specified effect; one whose classification throws leaves the edges alone and the root in need of them |
| `Classify.ExpandKeeps` | ui/src/expand.ts:42-133 | an expansion keeps the canvas invariant whatever the answers |
| `LiveView.MergeDraws` | ui/src/store.ts:130-149 | a merge draws exactly the listed edges, keeps every typed edge and drops at most `related` ones |
| `LiveView.ExpandSimulates` | ui/src/expand.ts:70-133 | on a truthful answer the canvas stays in agreement; the root becomes expanded, and its typed edges known with the server's provenance, if and only if none of its edges has an inherited type |
| `LiveView.ThrowsIffTrips` | ui/src/expand.ts:80-91 | an expansion on a truthful answer throws if and only if the server has an edge of an inherited type at the root |
| `LiveView.MergedDrawsRelated` | ui/src/store.ts:130-149 | an expansion leaves every `related` edge of the root drawn that no server edge erases |
| `LiveView.MergedKeepsOthers` | ui/src/store.ts:130-149 | an expansion leaves every edge that is typed or not at the root as it was |
| `LiveView.StepKeepsInv` | ui/src/live.ts:129-152 | each mutation with its event, each expansion, query, selection, mark and lag keeps the simulation |
| `LiveView.EveryRunAgrees` | ui/src/live.ts:129-152 | over every run, failed expansions included, the canvas shows no edge the server lacks, no wrong provenance, and between expanded nodes exactly the server's typed edges; exactly all its edges if no completed expansion met a `related` edge to an expanded node that another edge erases |
| `LiveView.InsertedEdgeLeavesTrace` | ui/src/live.ts:129-152 | over every run: an inserted edge is drawn or its visible ends are dirty, until an expansion, the details of an end, or a deletion |
| `LiveView.DetailsClearMark` | ui/src/store.ts:221-235 | fetching a node's details clears its mark and sets its label, and fetches no edge |
| `RelatedLoss.TotalIffHarmless` | ui/src/store.ts:130-149 | beside a server that does not change, agreement between expanded nodes is total over every run if and only if no `related` edge between expandable nodes has an edge that erases it |
| `RelatedLoss.TypedMergeErasesRelated` | ui/src/store.ts:441-446 | drawing a typed edge removes both `related` edges of the pair |
| `RelatedLoss.ErasedForGood` | ui/src/store.ts:130-149 | for every such edge of every server, two expansions after which both its ends are expanded and it is missing |
| `Resync.ResyncRepairsIffNothingStale` | ui/src/live.ts:207-219 | beside any server, whatever changed silently: a resync expands every visible node that can be, draws every typed edge there with its provenance, keeps every typed edge the server lacks, and so makes the canvas right if and only if it showed none |
| `Resync.ExpandInOrder` | ui/src/expand.ts:42-160 | an expansion beside any server keeps the canvas in order and neither adds nor removes a stale typed edge |
| `Resync.RunsAreInOrder` | ui/src/live.ts:129-152 | every run leaves a canvas a resync can start from |
| `MapPool.MapPool` | ui/src/classify.ts:111-137 | under every interleaving: each index called exactly once, at most min(max(limit,1),n) in flight, termination, each index exactly one of fulfilled or failed, errors strictly increasing |
| `MapPool.ClaimsFillThePool` | ui/src/classify.ts:133-134 | after each worker's first claim exactly min(max(limit,1),n) calls are in flight |
| `MapPool.InFlightCounts` | ui/src/classify.ts:125-126 | calls in flight are workers that wait |
| `MapPool.ClaimKeeps` | ui/src/classify.ts:119-124 | claiming keeps: no index awaited twice, all settled or untouched |
| `MapPool.SettleKeeps` | ui/src/classify.ts:125-129 | settling moves one index to the one place its outcome belongs and disturbs no other |
| `MapPool.SortIncreasing` | ui/src/classify.ts:135 | the sort of errors with distinct indices is strictly increasing |
| `MapPool.SortKeepsSettled` | ui/src/classify.ts:135-136 | sorting neither loses nor invents a failure |
| `ResyncGate.Gate.Request` | ui/src/live.ts:186-192 | a request starts a run or raises the flag |
| `ResyncGate.Gate.RunSettled` | ui/src/live.ts:194-204 | the end of a run starts the queued one or rests; a throw rests |
| `ResyncGate.EveryRunKeepsInv` | ui/src/live.ts:182-205 | over every sequence of requests and settlements runs alternate with their ends, and the flag is up exactly if a request lacks a later start |
| `ResyncGate.RequestsAreServedUnlessThrown` | ui/src/live.ts:182-205 | never two runs at once; at rest a request was dropped if and only if the last run threw with a request queued behind it |
| `ResyncGate.RestMeansServedInFull` | ui/src/explorer.ts:351-359 | if no run throws, at rest every request is followed by a complete run that starts after it |
| `ResyncGate.ThrowingRunDropsRequests` | ui/src/live.ts:194-204 | a run that throws leaves a queued request unserved |
| `ResyncGate.BurstCausesOneRun` | ui/src/live.ts:186-204 | any burst during a run causes exactly one further run |
| `WatchClient.Client.HandleMessage` | ui/src/watch.ts:91-110 | the handler's whole effect, with callbacks that may close the client |
| `WatchClient.Client.HandleClose` | ui/src/watch.ts:112-141 | detach, announce, and arm a timer unless the callback closed the client or threw |
| `WatchClient.EveryRunKeepsInv` | ui/src/watch.ts:57-141 | every run keeps the invariant that ties the fields to everything seen outside |
| `WatchClient.EveryRunIsOrderly` | ui/src/watch.ts:66-141 | with callbacks that close or throw anywhere: every callback follows its connection's ack, each delay is min(max, initial*2^k) for k closes since the last ack, and exactly one of live socket and pending timer while open unless stranded |
| `WatchClient.StrandedIff` | ui/src/watch.ts:112-118 | the one step that leaves an open client with neither is an `onReconnecting` that throws without closing |
| `WatchClient.StrandedIsFinal` | ui/src/watch.ts:112-141 | nothing but `close` changes such a client |
| `WatchClient.NeverStranded` | ui/src/watch.ts:66-141 | over every run without such a throw, exactly one of socket and timer while open, neither after close |
| `WatchClient.NothingAfterClose` | ui/src/watch.ts:69-83 | after close no connection, callback or timer ever again |
| `WatchClient.LogFitsAt` | ui/src/watch.ts:91-141 | every single entry of an orderly log fits what came before it |
| `WatchClient.StepIsHeard` | ui/src/watch.ts:69-141 | every input is answered with exactly its callbacks: an event frame by `onEvent`, a lag by `onLagged`, an ack by `onConnected`, a close by `onReconnecting`, each only when due |
| `WatchClient.ConnectionsProgress` | ui/src/watch.ts:80-141 | a timer leads to a new socket awaiting its ack, an ack resets the count of attempts, a close arms the timer, `close` leaves neither |
| `WatchClient.DelayLaws` | ui/src/watch.ts:134 | the delay starts at the initial one, doubles, and is capped at the maximum |
| `WatchClient.DropsAreCounted` | ui/src/watch.ts:130-136 | the exponent counts the closes after the last ack |
| `Transactions.TxHandle.StartCommit` | clients/typescript/src/client.ts:204-216 | a request is sent exactly from the open state, which becomes committing |
| `Transactions.TxHandle.CommitAnswered` | clients/typescript/src/client.ts:243-271 | the state after each kind of answer, and when the server is asked again |
| `Transactions.TxHandle.ProbeAnswered` | clients/typescript/src/client.ts:280-287 | still there is open, gone is finished, anything else is unknown |
| `Transactions.TxHandle.RollbackAnswered` | clients/typescript/src/client.ts:298-311 | success and expiry finish the handle, any other failure leaves the state and throws |
| `Transactions.CommitByStatus` | clients/typescript/src/client.ts:1135-1160 | which status, code and body reopen the handle, leave the outcome unknown, or have the server asked |
| `Transactions.CommitOutcomes` | clients/typescript/src/client.ts:243-271 | the state after each kind of reply, and the probe after any other |
| `Transactions.ProbeMirrorsServer` | clients/typescript/src/client.ts:273-287 | open if the probe finds the transaction, finished if it finds it gone, unknown if it learns nothing |
| `Transactions.OpenHandleActs` | clients/typescript/src/client.ts:222-228 | an open handle sends what it is asked to |
| `Transactions.RefusedRollbackCanBeRetried` | clients/typescript/src/client.ts:298-311 | a rollback refused with any other error leaves an open handle open, and the next one sends a request |
| `Transactions.LostRollbackCanBeRetried` | clients/typescript/src/client.ts:298-311 | so does one that is lost |
| `Transactions.CallbackOutcomes` | clients/typescript/src/client.ts:1135-1163 | what `transaction` does when its callback throws or resolves, in every state of the handle |
| `Transactions.OwnCommitDecides` | clients/typescript/src/client.ts:1159-1162 | it then resolves if its commit returns and rejects if it throws |
| `Transactions.StepKeepsInv` | clients/typescript/src/client.ts:185-311 | every stretch of client code, server action and loss keeps the invariant |
| `Transactions.EveryRunKeepsInv` | clients/typescript/src/client.ts:185-311 | so does every interleaving of overlapping calls, replies and failures |
| `Transactions.ReachableIsSafe` | clients/typescript/src/client.ts:185-311 | at most one commit in flight; finished means the server no longer holds it; open means nothing committed and no commit can still arrive, unless one was answered before the server had it |
| `Transactions.LateCommitOnOpenHandle` | clients/typescript/src/client.ts:262-287 | a run in which a gateway answers, the probe reopens the handle, and the commit then arrives |
| `Transactions.CommitTellsTheTruth` | clients/typescript/src/client.ts:243-261 | a commit that returns committed; one that throws conflict or constraint did not, nor one that throws expiry unless an earlier commit was answered before the server had it |
| `Transactions.UnknownIsTerminal` | clients/typescript/src/client.ts:204-217 | from unknown no request is ever sent and the handle is never usable again |
| `Transactions.FinishedIsTerminal` | clients/typescript/src/client.ts:185-311 | finished is permanent and silent once no commit is in flight |
| `Transactions.FinishedIsPermanentIff` | clients/typescript/src/client.ts:243-271 | in every reachable state, finished is permanent if and only if no commit is in flight |
| `Transactions.FinishedCanReopen` | clients/typescript/src/client.ts:257-259 | a run in which a late busy reply reopens a finished handle |
| `Transactions.TransactionResolvesOnFinished` | clients/typescript/src/client.ts:1057-1080 | `transaction()` resolves only on a finished handle, and after its own commit only if the work is stored |
| `Transactions.RollbackReturnsOnGone` | clients/typescript/src/client.ts:298-311 | a rollback that returns leaves the transaction over, and without effect if the server accepted it or no commit was ever asked for |
| `Transactions.NothingCommitsUnasked` | clients/typescript/src/client.ts:243-271 | with no commit under way, nothing can be committed while none is started |
| `Transactions.RollbackIsTrueIffAlone` | clients/typescript/src/client.ts:298-311 | from every open handle: with no commit started before it returns, a rollback's return can be wrong exactly if an earlier commit is outstanding; with one started, exactly if the transaction has not ended without effect |
| `Transactions.OutstandingCommitWins` | clients/typescript/src/client.ts:298-311 | a run in which a rollback alone returns although an outstanding commit is applied |
| `Transactions.OverlappingCommitWins` | clients/typescript/src/client.ts:304-308 | from every open handle whose transaction is still held, one overlapping commit gives a run in which the rollback returns on committed work |
| `DiskWatch.Forward` | crates/backup/src/disk.rs:34-62 | along a history a file in place is the old one or has an identity unspent before |
| `DiskWatch.SnapshotStood` | crates/backup/src/disk.rs:48-50 | equal identities at two moments mean the same snapshot stood throughout |
| `DiskWatch.LogStood` | crates/backup/src/disk.rs:51-53 | equal inodes mean the same log stood throughout and only grew |
| `DiskWatch.UnixReadsAreOneGeneration` | crates/backup/src/disk.rs:43-75 | on Unix, if two looks agree, everything read between them is of one generation, for every interleaving of the six reads with the writer |
| `DiskWatch.LooksVouchIffLogLeftAlone` | crates/backup/src/disk.rs:79-90 | without inodes, two agreeing looks vouch for every read between them if and only if no log was put in place meanwhile |
| `DiskWatch.LooksAgreeIffOnUnix` | crates/backup/src/disk.rs:68-74 | on Unix two looks agree if and only if no intent stands at either, no snapshot and no log was put in place between their reads; growth does not matter |
| `DiskWatch.LooksAgreeIffElsewhere` | crates/backup/src/disk.rs:68-74 | elsewhere if and only if no intent stands, no snapshot was put in place, and the log is no shorter |
| `DiskWatch.AppendsPass` | crates/backup/src/disk.rs:64-74 | a store that is only appended to passes |
| `DiskWatch.ReadsAreOneGenerationWithoutInodes` | crates/backup/src/disk.rs:79-90 | a writer that places the snapshot first replaces no log between two agreeing looks, so once a log exists the looks vouch |
| `DiskWatch.LogFirstDefeatsLooksWithoutInodes` | crates/backup/src/worker.rs:22-27 | a log-first writer defeats two agreeing looks without inodes |
| `DurableWrite.Directory.CreateFile` | crates/backup/src/disk.rs:153-165 | after an uninterrupted call the file holds exactly the bytes and no temporary name is left; the crash invariant is kept, and on Unix nothing remains that a crash could lose |
| `DurableWrite.EveryRunKeepsInv` | crates/backup/src/disk.rs:153-165 | any calls, failures and crashes keep every possible directory whole |
| `DurableWrite.BooksAreCalls` | crates/backup/src/disk.rs:153-165 | the bookkeeping of base and attempts names only bytes of calls that were made |
| `DurableWrite.FileIsNeverPartial` | crates/backup/src/disk.rs:150-165 | whatever unsynced effects are lost, the file holds its first content or exactly the bytes of a call, and nothing older than the last durable one |
| `DurableWrite.ReturnsAtRest` | crates/backup/src/disk.rs:161-164 | on Unix a returning call leaves a directory at rest that holds its bytes, whatever unsynced changes came before |
| `DurableWrite.OkSurvivesOnUnix` | crates/backup/src/disk.rs:161-164 | once a call returned Ok on Unix, through any crashes, failures and further calls, finished or cut short, the file holds its bytes or exactly those of a later call |
| `DurableWrite.OkCanBeLostElsewhere` | crates/backup/src/disk.rs:161-164 | without the directory sync a crash can lose it |
| `DurableWrite.LineageRoundTrip` | crates/backup/src/disk.rs:142-148 | the id written is the id read if and only if it is not empty and not padded with white space |
| `DurableWrite.TrimCuts` | crates/backup/src/disk.rs:145 | trimming cuts white space off both ends and nothing else |
| `DurableWrite.LineageMeans` | crates/backup/src/disk.rs:142-148 | there is no lineage exactly if the file is absent or blank |
| `DurableWrite.LineageIsOldOrNew` | crates/backup/src/disk.rs:142-165 | after any calls and crashes the lineage read is the first one or exactly the trimmed id of a call |
| `DurableWrite.ParentIsOldOrNew` | crates/backup/src/disk.rs:191-211 | for any encoding that decodes what it encodes, after any calls and crashes the parent record read is the first one or exactly that of a call |
| `DurableWrite.ParentSurvivesOnUnix` | crates/backup/src/disk.rs:191-211 | once a call returned Ok on Unix the record read is its record or exactly that of a later call |
| `Predicates.EvalIsSymmetric` | benchmarks/agent-tasks/association/truth.py:139-182 | every predicate is symmetric in its two nodes, given a symmetric distance |
| `Predicates.EvalReadsMentioned` | benchmarks/agent-tasks/association/truth.py:139-182 | a field the predicate does not mention cannot change its truth |
| `Predicates.JaccardBounds` | benchmarks/agent-tasks/association/truth.py:145-154 | the index lies in [0,1], is 1 only for equal sets, and non-positive or over-one minimums degenerate as they should |
| `Predicates.JaccardIsShare` | benchmarks/agent-tasks/association/truth.py:150-154 | the index times the number of tokens of either set is the number of tokens of both |
| `Predicates.OverlapsMeans` | benchmarks/agent-tasks/association/truth.py:150-154 | sets that meet overlap exactly if that share of their tokens is shared |
| `Predicates.OverlapMeans` | benchmarks/agent-tasks/association/truth.py:145-154 | the rule compares the scalar members of two lists, repetitions aside |
| `Predicates.FieldEqualMeans` | benchmarks/agent-tasks/association/truth.py:141-144 | fields are equal only as scalars of one type |
| `Predicates.NumericWithinMeans` | benchmarks/agent-tasks/association/truth.py:165-173 | each number lies in the closed interval around the other |
| `Predicates.GeoRadiusMeans` | benchmarks/agent-tasks/association/truth.py:155-164 | a positive radius, both places known, the distance not above it |
| `Predicates.AllMeans` | benchmarks/agent-tasks/association/truth.py:174-175 | a conjunction holds part by part, and not without a part |
| `Predicates.AnyMeans` | benchmarks/agent-tasks/association/truth.py:176-177 | a disjunction holds if some part does |
| `Derivation.DerivedEdges` | benchmarks/agent-tasks/association/truth.py:206-227 | the product loops compute exactly the edges some rule links |
| `Derivation.EdgesOf` | benchmarks/agent-tasks/association/truth.py:230-254 | one node against the world is the whole derivation restricted to edges at that node |
| `Derivation.Retraction` | benchmarks/agent-tasks/association/truth.py:315-328 | the one-node computation is the difference of two whole-world derivations; None exactly for an absent key |
| `Derivation.WithPropReads` | benchmarks/agent-tasks/association/truth.py:315-328 | the changed field reads the new value, every other field and node as before |
| `Derivation.DeltaIsExact` | benchmarks/agent-tasks/association/truth.py:230-254 | when one node changes, replacing its edges gives the new derivation |
| `Derivation.UnreadFieldRetractsNothing` | benchmarks/agent-tasks/association/truth.py:315-328 | changing a field no rule reads changes no edge |
| `Derivation.VisibleDerivation` | benchmarks/agent-tasks/association/truth.py:395-420 | filtering derived edges through a role is deriving over the nodes it can see; what is kept is exactly the derived edges both of whose ends carry one of its labels |
| `Derivation.Visible` | benchmarks/agent-tasks/association/truth.py:395-420 | an edge is kept exactly if both ends exist and carry one of the role's labels |
| `History.FoldedDeltasAreExact` | benchmarks/agent-tasks/association/truth.py:230-254 | folding one-node deltas over any history gives the derivation of its final state |
| `History.StateAt` | benchmarks/agent-tasks/association/truth.py:285-312 | the loop with its break replays the taken prefix, and on a log in day order all changes up to that day |
| `History.ApplyEffect` | benchmarks/agent-tasks/association/truth.py:296-312 | what each change leaves of the node it names, and that every other node stays |
| `History.BreakIsRightIffInOrder` | benchmarks/agent-tasks/association/truth.py:296-312 | the break is right on every day if and only if the log is in day order |
| `History.KeysAreDistinct` | dogfood/synthesize.py:132 | a generated key determines its kind and its index |
| `History.KeyFormat` | dogfood/synthesize.py:132 | a key is its kind's prefix and its index in digits, at least six |
| `History.FirstKeys` | dogfood/synthesize.py:132 | written-out keys of the three kinds |
| `History.OneChange` | benchmarks/agent-tasks/association/build.py:227-250 | whatever is drawn, one change keeps the generator's promises; it is of the kind drawn exactly unless nothing is left to set or delete that day; an insertion takes its kind's next index |
| `History.Changelog` | benchmarks/agent-tasks/association/build.py:196-224 | in day order, no key twice in a day, no absent key set or deleted, only unused keys inserted, each change of the kind drawn for it as far as possible, and the live map equal to the state at the last day |
| `History.DeletedStaysDeleted` | benchmarks/agent-tasks/association/build.py:198-205 | a deleted key is never named again |
| `History.GroupByDay` | benchmarks/agent-tasks/association/build.py:655-657 | each day's list is that day's changes in order |
| `History.WriteStore` | benchmarks/agent-tasks/association/build.py:659-684 | each day ends at the commit its changes lead to |
| `History.RecordedCommitsAscend` | benchmarks/agent-tasks/association/build.py:676-682 | recorded commits never decrease and repeat exactly on a day without changes |
| `History.RecordedCommitIsTheDay` | benchmarks/agent-tasks/association/build.py:675-682 | the log replayed to the commit recorded for a day is the state of that day |
| `Multihop.Multihop` | benchmarks/agent-tasks/association/truth.py:352-379 | one pass finds exactly the counted answers that some wanted edge reaches |
| `Multihop.OnePassIsTheCount` | benchmarks/agent-tasks/association/truth.py:352-379 | with at least one type and one source that is the counting definition |
| `Multihop.PassIsTheCountIff` | benchmarks/agent-tasks/association/truth.py:352-379 | the pass is the counting definition in every world if and only if at least one type and at least one source are asked for |
| `Multihop.OrderDoesNotMatter` | benchmarks/agent-tasks/association/truth.py:352-379 | the answer depends on the set of edges only |
| `Multihop.DirectionDoesNotMatter` | benchmarks/agent-tasks/association/truth.py:352-379 | nor on the direction in which an edge is stored |
| `Multihop.AnswerMeans` | benchmarks/agent-tasks/association/truth.py:352-379 | an answer has the label, passes its filter, and has that many distinct nodes passing theirs, each joined to it by every wanted type |
| `Multihop.RaisingTheBarOnlyRemoves` | benchmarks/agent-tasks/association/truth.py:352-379 | the answers shrink as the minimum of sources rises |
| `Multihop.NearMisses` | benchmarks/agent-tasks/association/build_tasks.py:264-272 | every near miss has exactly bar-1 qualifying sources, and from a bar of two on all such nodes are in the pool |
| `Multihop.Partners` | benchmarks/agent-tasks/association/truth.py:336-349 | exactly the nodes joined by all wanted types, and by something |
| `HandRolled.MatchIsTheRule` | benchmarks/adapters/handrolled.py:73-80 | the comparison the adapter makes is the rule's overlap predicate on the same lists |
| `HandRolled.MatchMeans` | benchmarks/adapters/handrolled.py:73-80 | two lists match if they share a specialty and at least 15 in 100 of all their specialties are shared |
| `HandRolled.Cross` | benchmarks/adapters/handrolled.py:154-170 | a double loop emits each matching pair exactly once |
| `HandRolled.ChunkCompletesJoin` | benchmarks/adapters/handrolled.py:154-170 | new talents against all companies and new companies against old talents is what the join gains |
| `HandRolled.IngestChunk` | benchmarks/adapters/handrolled.py:138-224 | a chunk emits, without repetition, exactly the pairs the join gains |
| `HandRolled.Ingest` | benchmarks/adapters/handrolled.py:138-224 | for any chunk size, after every chunk the emitted pairs are the join so far, each once over the run |
| `HandRolled.CollectChanges` | benchmarks/adapters/handrolled.py:253-263 | the two lists are exactly the edges to retract and to add, without repetition |
| `HandRolled.UpdateBatched` | benchmarks/adapters/handrolled.py:235-283 | one batched update replaces the talent's edges by its matches, with exact counts |
| `HandRolled.UpdateNaive` | benchmarks/adapters/handrolled.py:395-429 | edge by edge, the same result and the same counts |
| `HandRolled.JoinAfterUpdate` | benchmarks/adapters/handrolled.py:235-283 | an update moves the join at the updated talent only, to its new matches |
| `HandRolled.UpdatesMaintain` | benchmarks/adapters/handrolled.py:235-283 | after any list of updates the stored edges are the join of the updated nodes |
| `HandRolled.CountsBalance` | benchmarks/adapters/handrolled.py:235-283 | the count changes by additions minus retractions |
| `HandRolledRuns.WriteSpecs` | benchmarks/adapters/handrolled.py:250-251 | the caller's dictionary is written in place, and no other node changes |
| `HandRolledRuns.CollectEdgeSet` | benchmarks/adapters/handrolled.py:87-97 | the stored edges whose source is a talent |
| `HandRolledRuns.RunHandrolled` | benchmarks/adapters/handrolled.py:104-312 | whatever chunks and updates, either variant reports the join of the nodes as it leaves them, which carry the updates |
| `HandRolledRuns.LastUpdateWins` | benchmarks/adapters/handrolled.py:250-251 | a talent ends with the specialties of the last update that names it |
| `HandRolledRuns.UpdatesAreIdempotent` | benchmarks/adapters/handrolled.py:250-251 | applying a list of updates twice is applying it once |
| `HandRolledRuns.SecondPassIsIdle` | benchmarks/adapters/handrolled.py:692-700 | on nodes that carry them already, updates of distinct talents move no edge |
| `HandRolledRuns.NaiveThenBatched` | benchmarks/adapters/handrolled.py:692-700 | both variants end equal, and the second run on the shared nodes counts no retraction and no addition |
| `Cypher.Tokenize` | ui/src/cypher.ts:66-133 | the result is a longest-token reading of the source by the lexical grammar |
| `Cypher.ScanString` | ui/src/cypher.ts:80-97 | a string ends at its first unescaped quote or takes the rest, even when a trailing backslash oversteps the end |
| `Cypher.ReadingIsUnique` | ui/src/cypher.ts:66-133 | a source has one reading only |
| `Cypher.ReadingIsLossless` | ui/src/cypher.ts:66-133 | token texts are non-empty and join to the source |
| `Cypher.ReadingIsLocal` | ui/src/cypher.ts:66-133 | each token text, read alone, is just that token |
| `CypherReadings.NumberReads` | ui/src/cypher.ts:98-107 | digits, and digits with a point and digits behind it, are one number |
| `CypherReadings.KeywordsListed` | ui/src/cypher.ts:15-54 | which words are keywords |
| `CypherReadings.KeywordInAnyCase` | ui/src/cypher.ts:108-120 | a listed word in any case is one keyword |
| `CypherReadings.OtherWordsAreNames` | ui/src/cypher.ts:108-120 | any other word of letters, digits and underscores is one identifier |
| `CypherReadings.SpaceReads` | ui/src/cypher.ts:121-129 | blanks, tabs and line ends are one token |
| `CypherReadings.CommentReads` | ui/src/cypher.ts:71-79 | a comment reaches to the end of its line |
| `CypherReadings.StringReads` | ui/src/cypher.ts:80-97 | a text in either quote is one string |
| `CypherReadings.MarkReads` | ui/src/cypher.ts:130 | any other character is a token of its own |
| `CypherReadings.PointSplitsNames` | ui/src/cypher.ts:108-130 | a point between two words makes three tokens |
| `CypherReadings.NumberThenName` | ui/src/cypher.ts:98-120 | a number ends where a name begins |
| `CypherHtml.EscapeIsOnePass` | ui/src/cypher.ts:149-155 | the four sequential replacements are one map over the characters |
| `CypherHtml.UnescapeInverts` | ui/src/cypher.ts:149-155 | resolving the references gives the text back |
| `CypherHtml.KindsPrinted` | ui/src/cypher.ts:56-64 | the tag each kind is printed in |
| `CypherHtml.PageShowsTokens` | ui/src/cypher.ts:135-147 | the page draws every character of every token in the class of its kind and nothing else |
| `CypherHtml.HighlightHtml` | ui/src/cypher.ts:135-147 | the page without tags, unescaped, is the source, and draws the one reading |
| `Tarball.FileFromTarball` | packaging/npm/install.js:80-100 | for every prefix of every written archive: the whole body of the first regular entry named `name` or `./name` if the prefix reaches its end, otherwise nothing |
| `Tarball.HeaderRoundTrip` | packaging/npm/install.js:86-89 | name, size and kind are read back from a written header |
| `Tarball.SizeRoundTrip` | packaging/npm/install.js:88 | an octal size is read back whatever terminates the field |
| `Tarball.SizeReads` | packaging/npm/install.js:88 | octal digits are read with any blanks before them and anything else behind; a field without them is zero |
| `Tarball.CutAtNul` | packaging/npm/install.js:87 | a name is cut at a NUL unless a line terminator follows in the field |
| `Tarball.SelectedMeans` | packaging/npm/install.js:89-93 | taken are entries of type `0` or NUL whose name field is the name, or the name behind `./` |
| `Tarball.CutArchive` | packaging/npm/install.js:84-99 | a truncated archive never yields a partial body |
| `Tarball.ReaderInvertsWriter` | packaging/npm/install.js:80-100 | on a whole archive the reader finds what the writer put in |
| `Tarball.WantedIsFirst` | packaging/npm/install.js:93-96 | what is found is the body of the first selected entry |
| `Tarball.ReadsTopLevelIff` | packaging/npm/install.js:91-93 | the first selected entry is the first top-level one if and only if its prefix field, where the magic makes it one, names no directory |
| `Tarball.NestedFileIsTaken` | packaging/npm/install.js:91-93 | a file further down, its directory in the prefix field, is taken for the top-level one |

## Left out

- Explorer: node props (labels are modelled), explanations, `related` fallback through `/explain`, layout, colours and the ticker.
- Canvas: an expansion at depth 2 is a sequence of the depth-1 expansions modelled here.
- LiveView.EveryRunAgrees: every change of an edge emits its event, delivered as it happens, and an expansion is one step; changes no event announces, as of derived edges or of provenance when a rule changes, are covered by `Resync`, an expansion interrupted by events is not.
- Classify.ClassifyFromEdges: ids are compared by Unicode scalar values where the source compares UTF-16 units; no result depends on that order.
- WatchClient: the parsing of frames, and a WebSocket constructor that throws.
- MapPool.MapPool: `calls` and `peak` are recorded for the statement; the array and list are values, since all workers share one scheduler.
- Transactions: the server is an assumption stated in `CommitAllowed`, `ProbeAllowed` and `RollbackAllowed`: an announced outcome is true, a busy server did nothing, any other error says nothing and may come before the server has the commit.
- DiskWatch: the snapshot writer is an assumption stated in `Allowed`: intent set before either file is replaced and cleared after, identities never reused, the log only grows.
- DurableWrite: a rename is one atomic change of the directory; contents are sequences of characters, and a file that is not valid UTF-8 is not modelled.
- Predicates: floating-point rounding, the haversine formula and vector similarity; distances are an arbitrary function, the overlap index is exact.
- HandRolled.UpdateNaive: database errors that the adapter swallows; every store call succeeds.
- HandRolledRuns.RunHandrolled: nodes have distinct keys and do not share a dictionary with each other; semantic edges and timing are left out.
- History.Changelog: the retries that look for a value different from the current one; any value may be drawn.
- History.WriteStore: every change is one commit, as the store is assumed to make it; commit timestamps are left out.
- Cypher.Tokenize: characters are Unicode scalar values where the source sees UTF-16 units.
- Tarball.FileFromTarball: decompression, names that are not valid UTF-8, and size fields that start with a sign or with white space outside ASCII.
- The Rust engine, its log, query planner and Bolt server, the HTTP endpoint wrappers and the bindings.
- Benchmark reports, bootstrap intervals, download and checksum logic: easy members only.
