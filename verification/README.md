# Law firm digital twin: verified model

A Dafny model of the parts of the simulator whose correctness is a matter of algorithms, transactions and
protocols rather than of fixed tables. `dafny verify dfyconfig.toml` checks everything.

Five groups of modules, one module per source file or component:

- **Scheduling.** `ScheduleCore` has manifests, their normal order and the greedy scheduler that keeps an array of
  free times per resource. `SimPyAdapter` is the event-driven run of the same manifest with an explicit FIFO queue
  per resource. `ScheduleValidator` is the independent checker that looks at interval endpoints only, and the gate
  that demands equal plans. The greedy schedule is shown to be pointwise minimal, and both planners meet one
  specification.
- **Stores.** `CommitStore` and `FinanceJournal` run a transaction statement by statement on a working copy that a
  crash drops; each refines an append-only log. `CommitAudit` and `FinanceAudit` hold the snapshots, what a head hash
  authenticates, the checker of transitions, conservation of money and the predicted billing lifecycle.
  `CommitAnswers` and `FinanceAnswers` say over the fields of rows and decisions what is recorded and answered.
- **Sealed IPC.** `CanonicalJson` and `FrameCodec` are the printer, reader and frame codec; `JsonGrammar` has the
  grammar of RFC 8259 as syntax trees, and printer and reader are proved against it. `SealedIpc` has
  capabilities, the replay ledger and the authorizer; `SealedIpcRuns` and `SealedIpcValidator` say what holds over
  every run of calls made one after another, and `SealedIpcAnswers` what receipts, denials and ledger entries contain.
- **Graphs and quotas.** `Digraph`, `DagErrors` and `CycleDetector` are the two cycle checks, `LifecycleCatalog` the
  graphs fed to them, with their renamed copies, and `PopulationAllocation` the largest-remainder allocation of
  population labels.
- **The G2 world.** `G2World`, `G2Finance`, `G2Evidence` and `G2Kernel` are the authority-gated kernel with its ledger
  and evidence file; `Berean` is the auditor; `G2Runs` has the theorems about every run, and `G2Closure` a run that
  closes a matter, with what that shows of the worlds in which it can be closed. `G2Repeats` says what a second
  preservation and a second audit of the invoices do. `G2Rights` explains in every reachable state who holds what
  and who can do what, and `G2Records` what the records of the matter say.

`Wrappers`, `Strings` and `Collections` are shared vocabulary.

Digests, tags and truncated ids are functions given as parameters, one for each kind of value. Nowhere is a digest
assumed injective on everything: a theorem that needs freedom from collisions says so about the values that occur
in it, and a repeated unique column is a violated constraint, as in the database.

Where code and intention part, the code is modelled and a lemma shows how far it goes:

- a population has the requested size for every count iff buckets that share an id have no weight (`SizeIsExact`;
  `RepeatedIdOverfills` is a small instance where it fails);
- rejected commands are atomic over all runs of a world iff its artifact ids are distinct, because a collection
  that meets an id again stops halfway (`AtomicityNeedsDistinctIds`, `CollectionNeedsDistinctIds`);
- the greedy schedule is optimal among schedules in normal order, and among all schedules iff the jobs can all start
  when they are ready (`OptimalExactlyWhen`); a valid manifest may be refused although the checker would accept a
  trace for it (`OvertakingCanMeetCeilings`);
- the billing identities fail iff something was invoiced since the last audit or paid before it
  (`ReconcilesExactlyWhen`); an audit after a payment is accepted, breaks the third identity for good and rules out
  the close (`SecondAuditRulesOutClose`, `OverdrawnNeverCloses`);
- a matter can be closed with money still owed in every world where it can be closed at all (`MatterCanClose`), and
  is exactly when the payments fall short of what was approved and recovered (`OwedAtClose`);
- preservation may be issued again, and for inventories as the simulator makes them the custody audit fails iff that
  happened after the last production (`CustodyAuditFollowsEvents`, `PreservationFailsAudit`);
- the kernel's check that two different actors handle the deadlines never decides anything
  (`DeadlinesAreDualControlled`).

## Model

| member | source | states |
|---|---|---|
| `ScheduleCore.Normalize` | src/law_firm_digital_twin/simulation_schedule_core.py:311-328 | the normalized list is a permutation of the given proposals |
| `ScheduleCore.NormalizeSorts` | src/law_firm_digital_twin/simulation_schedule_core.py:311-328 | of two proposals the first in the normal order is ready earlier, or ready at the same tick with the smaller priority number, or has the same of both and the smaller submission ordinal |
| `ScheduleCore.PermutationInvariance` | src/law_firm_digital_twin/simulation_schedule_core.py:311-328 | the order in which a manifest lists its proposals has no effect on the normalized list |
| `ScheduleCore.GreedyFeasible` | src/law_firm_digital_twin/simulation_schedule_core.py:331-366 | the greedy starts respect ready ticks, service times, the capacity of every resource at every tick, and the normal order of each resource |
| `ScheduleCore.GreedyStartMinimal` | src/law_firm_digital_twin/simulation_schedule_core.py:338-354 | pointwise optimality: every schedule that respects ready ticks and capacity and starts the jobs of a resource in normal order starts each job no earlier than the greedy rule does |
| `ScheduleCore.RejectionIsComplete` | src/law_firm_digital_twin/simulation_schedule_core.py:349-353 | if any feasible in-order schedule is within the wait and finish ceilings, so is the greedy one; so a ceiling error is raised only when no such schedule exists |
| `ScheduleCore.OptimalExactlyWhen` | src/law_firm_digital_twin/simulation_schedule_core.py:338-354 | for every workload: the greedy schedule starts each job no later than all schedules do, overtaking included, iff the jobs can all start when they are ready |
| `ScheduleCore.WorkConserving` | src/law_firm_digital_twin/simulation_schedule_core.py:341-354 | at every tick between a job's ready tick and its start, earlier jobs hold exactly all units of its resource |
| `ScheduleCore.WaitBound` | src/law_firm_digital_twin/simulation_schedule_core.py:341-354 | capacity times the wait of a job is at most the total service of the earlier jobs of its resource |
| `ScheduleCore.Book` | src/law_firm_digital_twin/simulation_schedule_core.py:341-354 | the array step: books the earliest free slot, the lowest one on ties, and leaves every other slot alone |
| `ScheduleCore.PlanWithReferenceScheduler` | src/law_firm_digital_twin/simulation_schedule_core.py:331-393 | the loop over slot arrays returns the decisions of the greedy starts, or an error exactly when the manifest is invalid or a ceiling is broken; the error names the ceiling that the first offending job breaks, the wait first |
| `SimPyAdapter.HeadStartsNow` | src/law_firm_digital_twin/simpy_schedule_adapter.py:42-84 | in the queue simulation a head of queue that finds a unit free starts at the tick that the greedy rule gives it |
| `SimPyAdapter.NoneStartsNow` | src/law_firm_digital_twin/simpy_schedule_adapter.py:42-84 | a job that must wait does not start in this tick by the greedy rule either |
| `SimPyAdapter.RunProcesses` | src/law_firm_digital_twin/simpy_schedule_adapter.py:42-84 | the tick-by-tick run of arrivals, releases and grants records for every proposal its greedy start, or reports the ceiling that is broken first in time |
| `SimPyAdapter.Plan` | src/law_firm_digital_twin/simpy_schedule_adapter.py:42-111 | the event-driven planner meets the very specification of the reference planner; where that one reports the first breach in normal order, this one reports a breach at the earliest tick, a wait counting when the job starts and a finish when it ends |
| `SimPyAdapter.PlansAgree` | src/law_firm_digital_twin/simpy_schedule_adapter.py:42-111 | two plans for one manifest have equal decisions, and one is an error exactly when the other is |
| `ScheduleValidator.SweepIsExact` | src/law_firm_digital_twin/simulation_schedule_validator.py:103-109 | bounding the usage at interval endpoints only is the same as bounding it at every tick |
| `ScheduleValidator.CapacityHolds` | src/law_firm_digital_twin/simulation_schedule_validator.py:103-109 | the sweep loop answers whether at every tick the intervals stay within capacity |
| `ScheduleValidator.CheckRow` | src/law_firm_digital_twin/simulation_schedule_validator.py:76-101 | the errors of one decision row are none iff the row is valid for the manifest |
| `ScheduleValidator.ValidateSchedulerTrace` | src/law_firm_digital_twin/simulation_schedule_validator.py:46-110 | the validator reports no error iff the trace is a schedule of the manifest: one valid row per proposal, ordinals in sequence, and capacity at every tick |
| `ScheduleValidator.PlanIsSchedule` | src/law_firm_digital_twin/simulation_schedule_validator.py:46-110 | every plan passes the validator |
| `ScheduleValidator.PriorityGoesFirst` | src/law_firm_digital_twin/simulation_schedule_core.py:311-393 | in every plan of either planner, of two proposals for one resource that are ready at the same tick the one with the smaller priority number has the smaller deterministic ordinal and does not start later; the submission ordinal decides on a tie |
| `ScheduleValidator.AcceptedTraceMeans` | src/law_firm_digital_twin/simulation_schedule_validator.py:46-110 | the validator accepts a trace of a valid manifest iff its decisions are numbered in sequence, each on a proposal of its own in its words, time and ceilings, and no tick of a resource has more of them running than it has units |
| `ScheduleValidator.AcceptedTraceMeansPlan` | src/law_firm_digital_twin/simulation_schedule_validator.py:46-110 | if any trace in normal order passes the validator, then the greedy plan is within the ceilings, so planning succeeds |
| `ScheduleValidator.CeilingErrorIsComplete` | src/law_firm_digital_twin/simulation_schedule_validator.py:46-110 | if planning fails at a ceiling, no trace in normal order passes the validator |
| `ScheduleValidator.OvertakingCanMeetCeilings` | src/law_firm_digital_twin/simulation_schedule_validator.py:46-110 | the order hypothesis is needed: a valid manifest that every planner refuses, and a trace in which a short job overtakes that the validator accepts |
| `ScheduleValidator.QualifySchedule` | src/law_firm_digital_twin/simulation_schedule_validator.py:139-192 | comparing and replaying the plans never finds a difference: qualification succeeds with the reference plan whenever there is one |
| `Digraph.OrderMeansAcyclic` | src/law_firm_digital_twin/litigation_lifecycle_validator.py:166-176 | an order of nodes in which every arc points backwards rules out cycles |
| `Digraph.StuckMeansCycle` | src/law_firm_digital_twin/litigation_lifecycle_validator.py:166-176 | a non-empty set of nodes each with an arc into the set contains a cycle |
| `DagErrors.BuildTables` | src/law_firm_digital_twin/litigation_lifecycle_validator.py:152-165 | the tables of in-degrees and dependants count and list exactly the known proper dependencies, and there is no table error iff all dependencies are known and proper |
| `DagErrors.CheckOrder` | src/law_firm_digital_twin/litigation_lifecycle_validator.py:166-176 | the queue loop over in-degrees reports the cycle error exactly when the ids repeat or the proper dependencies have a cycle |
| `DagErrors.KahnVerdict` | src/law_firm_digital_twin/litigation_lifecycle_validator.py:166-176 | as many visited nodes as ids iff the ids are distinct and the graph is acyclic |
| `DagErrors.Reach` | src/law_firm_digital_twin/litigation_lifecycle_validator.py:177-187 | the breadth-first loop ends with the least set that contains the roots and is closed under dependants |
| `DagErrors.AllReachable` | src/law_firm_digital_twin/litigation_lifecycle_validator.py:180-189 | with one root, sound dependencies and no cycle, every id is reached |
| `DagErrors.DagErrors` | src/law_firm_digital_twin/litigation_lifecycle_validator.py:147-190 | no error iff the ids are distinct, every dependency is known and not the id itself, the graph is acyclic and the only id without dependencies is the expected root; the cycle error alone iff ids repeat or the graph has a cycle |
| `CycleDetector.AssetGraph.Visit` | src/law_firm_digital_twin/design_c_validator.py:112-124 | the recursive visit, over the shared visiting and visited sets, ends; it answers true only with a cycle in hand, and otherwise leaves a completed set closed under dependencies |
| `CycleDetector.AssetGraph.HasCycle` | src/law_firm_digital_twin/design_c_validator.py:108-127 | visiting all ids reports a cycle iff the graph of known dependencies has one |
| `DagErrors.CompareDetectors` | src/law_firm_digital_twin/design_c_validator.py:108-127 | both detectors are run on one graph: the recursive one reports a cycle iff Kahn's algorithm does or some id depends on itself |
| `LifecycleCatalog.BuildDocuments` | src/law_firm_digital_twin/employment_lifecycle_catalog.py:357-403 | the nested loops chain each group to its base, row by row |
| `LifecycleCatalog.DocumentOfRow` | src/law_firm_digital_twin/employment_lifecycle_catalog.py:357-403 | every row of the table is the document at its place, and hangs off the row above it or, as the first of its group, off the base of the group |
| `LifecycleCatalog.WellOrderedTablePasses` | src/law_firm_digital_twin/employment_lifecycle_catalog.py:357-403 | every table whose rows are distinct and whose bases are earlier rows gives a graph without any dependency error |
| `LifecycleCatalog.BuildNodes` | src/law_firm_digital_twin/matter_dossier_planner.py:31-63 | the dossier nodes are the documents with ids and prerequisites renamed |
| `LifecycleCatalog.NodesAreRenamed` | src/law_firm_digital_twin/matter_dossier_planner.py:31-63 | the graph of the dossier nodes is the graph of the documents with every id renamed |
| `LifecycleCatalog.RenamingKeepsVerdict` | src/law_firm_digital_twin/matter_dossier_planner.py:31-63 | an injective renaming of a dependency table keeps the verdict of the dependency check, both ways |
| `LifecycleCatalog.DossierKeepsVerdict` | src/law_firm_digital_twin/matter_dossier_planner.py:31-63 | the dossier graph passes the dependency check iff the graph of the documents does, if no two documents share a node id |
| `LifecycleCatalog.BuildDossier` | src/law_firm_digital_twin/matter_dossier_planner.py:31-63 | the dossier built from the catalog of any well-ordered table passes the dependency check |
| `LifecycleCatalog.CollidingNamesRejected` | src/law_firm_digital_twin/matter_dossier_planner.py:31-63 | if two documents get the same node id, the dossier graph fails the check |
| `CommitStore.EventInsertion` | src/law_firm_digital_twin/sqlite_commit_adapter.py:262-283 | inserting the event row fails iff it repeats a unique column, and otherwise appends exactly the row that the log entry stands for |
| `CommitStore.RunStatements` | src/law_firm_digital_twin/sqlite_commit_adapter.py:262-318 | the statements on the working copy end with the tables of the extended log, or fail exactly at the requested fault or at a violated constraint |
| `CommitStore.SQLiteCommitAdapter.Commit` | src/law_firm_digital_twin/sqlite_commit_adapter.py:180-346 | refinement: for every fault point the durable tables stay those of an append-only log, which takes the whole proposal or nothing, and the outcome is a function of that log |
| `CommitStore.SQLiteCommitAdapter.AcknowledgeOutbox` | src/law_firm_digital_twin/sqlite_commit_adapter.py:348-367 | acknowledging marks exactly the item with the id and changes nothing else; doing so again changes nothing |
| `CommitStore.LogOnlyGrows` | src/law_firm_digital_twin/sqlite_commit_adapter.py:180-367 | over every run, entries are only ever appended |
| `CommitStore.RunKeepsLogValid` | src/law_firm_digital_twin/sqlite_commit_adapter.py:180-367 | over every run, no idempotency key owns two entries and no two entries share an outbox id |
| `CommitStore.DecisionNamesOwner` | src/law_firm_digital_twin/sqlite_commit_adapter.py:180-346 | an accepted or duplicate decision keeps naming the sequence, hash and outbox id of the entry that owns its key, whatever is appended later |
| `CommitStore.KeyNamesOneEvent` | src/law_firm_digital_twin/sqlite_commit_adapter.py:180-346 | exactly once: all accepted or duplicate decisions for one key name the same event |
| `CommitStore.KeyAcceptedOnce` | src/law_firm_digital_twin/sqlite_commit_adapter.py:180-346 | of the decisions that name an event for a key, only the first can be an acceptance |
| `CommitStore.CrashThenRetry` | src/law_firm_digital_twin/sqlite_commit_adapter.py:180-346 | a commit that crashed at any point and is retried leaves the log of one undisturbed commit; the retry is answered as that commit would have been, or, if the crash came after the transaction, as a duplicate of the entry it appended |
| `CommitAudit.TakeSnapshot` | src/law_firm_digital_twin/sqlite_commit_adapter.py:369-452 | the snapshot loop counts the rows and lists an error iff the tables are inconsistent |
| `CommitAudit.RepresentedIsConsistent` | src/law_firm_digital_twin/sqlite_commit_adapter.py:369-452 | the snapshot of every reachable store is free of errors |
| `CommitAudit.EqualHeadsAuthenticate` | src/law_firm_digital_twin/sqlite_commit_adapter.py:395-416 | two stores with error-free snapshots and equal heads have equally many events and agree on every hashed column, unless two of their rows collide |
| `CommitAudit.ValidateCommitTransition` | src/law_firm_digital_twin/commit_protocol_validator.py:43-94 | the checker is silent iff the decision explains the difference of the two snapshots |
| `CommitAudit.RealTransitionAccepted` | src/law_firm_digital_twin/commit_protocol_validator.py:43-94 | for every reachable store, the checker accepts the snapshots around a completed commit, in all four dispositions |
| `CommitAudit.CommitAndCheck` | src/law_firm_digital_twin/commit_protocol_validator.py:43-94 | snapshot, commit, snapshot and check on the adapter itself never yields an error |
| `CommitAnswers.InvalidExactlyWhen` | src/law_firm_digital_twin/sqlite_commit_adapter.py:180-202 | a proposal is refused as invalid exactly for its revision, an empty name, a commitment that is not 64 long, or one of the three forbidden requests |
| `CommitAnswers.RecordedWereClean` | src/law_firm_digital_twin/sqlite_commit_adapter.py:180-346 | over every run, whatever was recorded was clean and expected the head of its time |
| `CommitAnswers.EventColumns` | src/law_firm_digital_twin/sqlite_commit_adapter.py:262-283 | the event row of an entry holds, column by column, what the proposal said, the hash of the row before it, and its own hash |
| `CommitAnswers.CommandAndOutboxColumns` | src/law_firm_digital_twin/sqlite_commit_adapter.py:284-318 | the command and outbox rows of an entry name its key, digests, sequence, hash and outbox id, and whether it was acknowledged |
| `CommitAnswers.ReusedKeyAnswer` | src/law_firm_digital_twin/sqlite_commit_adapter.py:203-229 | a reused key is answered as a duplicate with the stored sequence, hash and outbox id iff the three stored digests are those of the proposal, and otherwise as a conflict; nothing is recorded |
| `CommitAnswers.ChangedInputIsConflict` | src/law_firm_digital_twin/sqlite_commit_adapter.py:203-229 | over every run, a key that was answered before and comes back with changed input is a conflict and leaves the log alone |
| `CommitAnswers.KeyNamesOneInput` | src/law_firm_digital_twin/sqlite_commit_adapter.py:180-346 | over every run, all decisions that name an event for one key answered the same proposal hash, command commitment and dependency hash |
| `CommitAnswers.FreshKeyAnswer` | src/law_firm_digital_twin/sqlite_commit_adapter.py:230-346 | under a fresh key a proposal is stale iff it expects another head, violates a constraint iff it repeats a unique column, and is otherwise accepted with the next sequence and its hash |
| `CommitAnswers.FaultIsAllOrNothing` | src/law_firm_digital_twin/sqlite_commit_adapter.py:180-346 | a call that faults was asked to at that point, and has recorded the proposal iff the transaction was complete |
| `CommitAnswers.MarkedIffAcknowledged` | src/law_firm_digital_twin/sqlite_commit_adapter.py:348-367 | over every run, an outbox item is marked iff it was acknowledged by its id after its event was recorded |
| `CommitAnswers.ErrorFreeMeans` | src/law_firm_digital_twin/sqlite_commit_adapter.py:369-452 | a snapshot lists no error iff every event continues the one before and hashes its columns, the head is the last hash, and every command and outbox row points at its event |
| `CommitAnswers.AcceptanceIsTight` | src/law_firm_digital_twin/commit_protocol_validator.py:43-94 | an acceptance that passes the checker is determined by the snapshot before it and the proposal: all counts, and every field of the decision but its outbox id |
| `Decimal.PrintInjective` | src/law_firm_digital_twin/finance_journal.py:429-440 | different numbers are written differently, so the keys of the predicted proposals differ |
| `FinanceJournal.SQLiteFinanceJournal.Post` | src/law_firm_digital_twin/finance_journal.py:182-301 | refinement: for every fault point the tables stay those of a log of balanced proposals, which takes the whole proposal or nothing; a reused transaction id under a fresh key aborts |
| `FinanceAnswers.InvalidExactlyWhen` | src/law_firm_digital_twin/finance_journal.py:151-175 | a posting passes validation iff its entries are one-sided and add up to zero, its names and commitments are in order, and it asks for nothing else |
| `FinanceAnswers.TransactionColumns` | src/law_firm_digital_twin/finance_journal.py:241-268 | the row of a transaction holds, column by column, what the proposal said, the hash of the row before it, and its own hash |
| `FinanceAnswers.EntryColumns` | src/law_firm_digital_twin/finance_journal.py:269-290 | the entry rows are exactly the entries of the proposals, numbered from one |
| `FinanceAnswers.ReusedKeyAnswer` | src/law_firm_digital_twin/finance_journal.py:199-219 | a reused key is answered as a duplicate with the stored sequence and hash iff the proposal hash is the stored one, and otherwise as a conflict; nothing is recorded |
| `FinanceAnswers.FreshKeyAnswer` | src/law_firm_digital_twin/finance_journal.py:220-301 | under a fresh key a posting is stale iff it expects another head, violates a constraint iff it repeats a unique column, and is otherwise accepted |
| `FinanceAnswers.KeyNamesOneTransaction` | src/law_firm_digital_twin/finance_journal.py:182-301 | exactly once: over every run, all decisions that name a transaction for a key name the same one and answered the same proposal |
| `FinanceAudit.MoneyIsConserved` | src/law_firm_digital_twin/finance_journal.py:390-403 | in every reachable journal each balance is the fold of the accepted proposals, the balances of all accounts sum to zero, and debits equal credits |
| `FinanceAnswers.BalanceIsDebitsLessCredits` | src/law_firm_digital_twin/finance_journal.py:390-403 | the balance of an account in a snapshot is what was debited to it less what was credited |
| `FinanceAudit.TakeSnapshot` | src/law_firm_digital_twin/finance_journal.py:336-418 | the snapshot folds the balances and lists an error iff the chain, the stored entries or the totals are inconsistent |
| `FinanceAnswers.ErrorFreeMeans` | src/law_firm_digital_twin/finance_journal.py:336-418 | a snapshot lists no error iff every transaction continues the one before, hashes its columns and entries and balances, the head is the last hash, and the totals agree |
| `FinanceAudit.RepresentedIsConsistent` | src/law_firm_digital_twin/finance_journal.py:336-418 | the snapshot of every reachable journal is free of errors |
| `FinanceAudit.EqualHeadsAuthenticate` | src/law_firm_digital_twin/finance_journal.py:357-389 | two journals with error-free snapshots and equal heads agree on everything that is hashed, entries included, unless two of their rows collide |
| `FinanceAudit.BuildFinanceLifecycle` | src/law_firm_digital_twin/finance_journal.py:421-453 | each predicted proposal expects the head that all earlier ones leave |
| `FinanceAnswers.PredictedColumns` | src/law_firm_digital_twin/finance_journal.py:421-453 | each predicted proposal books the entries of its stage, on the hash of the proposal before it |
| `FinanceAudit.NextPredictedAccepted` | src/law_firm_digital_twin/finance_journal.py:421-453 | a journal that holds the first proposals of the predicted chain admits the next one |
| `FinanceAudit.PostLifecycle` | src/law_firm_digital_twin/finance_journal.py:182-301 | an empty journal accepts the whole predicted chain and then holds exactly it |
| `FinanceAudit.PostAgain` | src/law_firm_digital_twin/finance_journal.py:182-301 | posting the chain again yields only duplicate replays and leaves the tables as they are |
| `CanonicalJson.CanonicalizeIsCanonical` | src/law_firm_digital_twin/hashio.py:11-24 | in a canonical form the keys of every object ascend |
| `Strings.LessIsLexicographic` | src/law_firm_digital_twin/hashio.py:11-24 | the order of keys is that of the first difference, where an end comes before every character |
| `CanonicalJson.CanonicalFormsAgree` | src/law_firm_digital_twin/hashio.py:11-24 | two values have the same canonical form iff they are equal as dictionaries are: the same keys with the same values, and arrays item by item |
| `CanonicalJson.CanonicalizeKeepsContent` | src/law_firm_digital_twin/hashio.py:11-24 | a canonical form equals the value it was made from as dictionaries are equal |
| `CanonicalJson.CanonicalIsFixed` | src/law_firm_digital_twin/hashio.py:11-24 | a canonical value is its own canonical form |
| `JsonGrammar.PrintIsCompact` | src/law_firm_digital_twin/hashio.py:27-28 | the text of a canonical value is that of a syntax tree of the JSON grammar with this meaning, without white space, with the shortest lower-case ASCII escapes and ascending keys |
| `JsonGrammar.LoadsExactlyWhatStands` | src/law_firm_digital_twin/sealed_ipc_protocol.py:454-457 | the reader takes a text to a value iff some syntax tree of the JSON grammar has this text, white space around it allowed, and this value as its meaning |
| `JsonGrammar.ValueReadsBack` | src/law_firm_digital_twin/hashio.py:27-28 | the JSON reader takes a canonical value back from its text and leaves the text that follows, if that begins with a delimiter or is empty |
| `JsonGrammar.CanonicalTextStandsFor` | src/law_firm_digital_twin/hashio.py:27-28 | canonical text is a compact JSON text of a value equal to the given one as dictionaries are |
| `JsonGrammar.CanonicalTextReadsBack` | src/law_firm_digital_twin/hashio.py:27-28 | loading the canonical text of a value gives the value with its keys in order |
| `JsonGrammar.CanonicalTextIsInjective` | src/law_firm_digital_twin/hashio.py:27-28 | two values have the same canonical text iff they are equal as dictionaries are, which says nothing about the order of keys |
| `CanonicalJson.PrintIsAscii` | src/law_firm_digital_twin/hashio.py:27-28 | canonical text is ASCII |
| `CanonicalJson.LoadsProper` | src/law_firm_digital_twin/sealed_ipc_protocol.py:454-457 | whatever text is loaded, the objects in the result have no repeated key |
| `FrameCodec.FrameRoundTrip` | src/law_firm_digital_twin/sealed_ipc_protocol.py:438-462 | decoding the frame of an object gives an equal object, with its keys in order |
| `FrameCodec.EncodedFrame` | src/law_firm_digital_twin/sealed_ipc_protocol.py:438-444 | a value is encoded iff the limit is from 1 to 65536 and its canonical text fits; the frame is the length in four bytes, the most significant first, and the characters of the text |
| `FrameCodec.DecodeAnswer` | src/law_firm_digital_twin/sealed_ipc_protocol.py:447-462 | a frame of a text within the limit is decoded by what the text stands for: to the object if it is its canonical text, and otherwise rejected as no JSON, no object or not canonical |
| `FrameCodec.DecodedIsEncoded` | src/law_firm_digital_twin/sealed_ipc_protocol.py:438-462 | an accepted frame is the frame of what it decodes to |
| `FrameCodec.AcceptedFramesAreEncodings` | src/law_firm_digital_twin/sealed_ipc_protocol.py:447-462 | with numbers that are integers, a byte string is accepted iff it is the frame of some object within the limit |
| `FrameCodec.FramesAreInjective` | src/law_firm_digital_twin/sealed_ipc_protocol.py:438-444 | two values have the same frame iff they are equal as dictionaries are |
| `SealedIpc.AppendOnlyReplayLedger.Append` | src/law_firm_digital_twin/sealed_ipc_protocol.py:261-294 | an append adds one chained entry and the nonce, and keeps the receipt of an acceptance under its idempotency key |
| `SealedIpc.SealedIpcAuthorizer.Authorize` | src/law_firm_digital_twin/sealed_ipc_protocol.py:321-435 | the branch chain, including the continuation after a failed rebuild, gives the outcome and the ledger that the verdict on the request describes |
| `SealedIpcAnswers.FirstReceipt` | src/law_firm_digital_twin/sealed_ipc_protocol.py:409-435 | a receipt that is no duplicate carries the id, operation and matter of the request and the result of this very call, and its id is the digest of these and the request hash |
| `SealedIpcAnswers.ReceiptCarriesFirstResult` | src/law_firm_digital_twin/sealed_ipc_protocol.py:381-435 | whatever receipt is returned carries the result of the first call accepted for the same request under the same key, and is flagged iff that call was an earlier one |
| `SealedIpcAnswers.AcceptedIsAuthentic` | src/law_firm_digital_twin/sealed_ipc_protocol.py:321-380 | unless requests collide, every accepted request carries the tag of its terms and says field by field what its capability allows, in its interval and for its principal |
| `SealedIpcAnswers.EntryOfCall` | src/law_firm_digital_twin/sealed_ipc_protocol.py:261-294 | each recorded call leaves one ledger entry that says, column by column, what was called and how it was answered; other calls leave none |
| `SealedIpcAnswers.EarlyDenials` | src/law_firm_digital_twin/sealed_ipc_protocol.py:347-380 | the code in the ledger is that of the first check that fails: request, principal, terms, interval |
| `SealedIpcAnswers.ReplayAnswer` | src/law_firm_digital_twin/sealed_ipc_protocol.py:381-408 | a call that passes these is answered by history: a key taken by the same request repeats, by another one denies, and a used nonce denies; a fresh one is accepted |
| `SealedIpcAnswers.IssuedCapability` | src/law_firm_digital_twin/sealed_ipc_protocol.py:158-203 | a capability is issued iff key, principal, operation, names and interval are in order, and then for exactly its terms |
| `SealedIpcRuns.ServeAll` | src/law_firm_digital_twin/sealed_ipc_protocol.py:303-435 | an authorizer is made iff the key has 32 bytes; serving any list of calls on it one after another gives the outcomes and the ledger that the theorems below speak of |
| `SealedIpcRuns.NoReplay` | src/law_firm_digital_twin/sealed_ipc_protocol.py:261-294 | over every run, two non-duplicate acceptances differ in idempotency key and in nonce; the nonce differs from that of every earlier recorded call, denied or not |
| `SealedIpcRuns.DuplicateRepeatsFirst` | src/law_firm_digital_twin/sealed_ipc_protocol.py:381-395 | every duplicate receipt equals the receipt first issued for the same request, except for its flag |
| `SealedIpcRuns.AcceptedIsBound` | src/law_firm_digital_twin/sealed_ipc_protocol.py:321-435 | unless requests collide, whatever is accepted is rebuilt from an authentic capability, in its interval and for its principal; a request whose rebuild raised is never accepted |
| `SealedIpcRuns.AcceptedInTimeForPrincipal` | src/law_firm_digital_twin/sealed_ipc_protocol.py:369-380 | interval, principal and authority hold of every acceptance without any hypothesis on the digests |
| `SealedIpcRuns.IssuedRequestVerdict` | src/law_firm_digital_twin/sealed_ipc_protocol.py:158-239 | a request built from an issued capability and used in time by its principal is decided by the replay state alone, and accepted when that is fresh |
| `SealedIpcRuns.ResendingRepeats` | src/law_firm_digital_twin/sealed_ipc_protocol.py:381-395 | sending an accepted request again, in time, repeats its receipt with the flag set and adds only a ledger entry |
| `SealedIpcValidator.ValidateReplayLedger` | src/law_firm_digital_twin/sealed_ipc_validator.py:131-161 | the validator reports no error iff the entries chain, hash their own columns, match disposition with code, and no hash occurs twice |
| `SealedIpcAnswers.SilenceMeans` | src/law_firm_digital_twin/sealed_ipc_validator.py:131-161 | the validator is silent iff every entry has the next number, the hash of the one before and its own hash, is hidden from workers, and is a denial iff it has a code; and no hash occurs twice |
| `SealedIpcValidator.RunChainHolds` | src/law_firm_digital_twin/sealed_ipc_validator.py:131-161 | the ledger of every run chains |
| `SealedIpcValidator.RunPassesValidator` | src/law_firm_digital_twin/sealed_ipc_validator.py:131-161 | the ledger of every run passes the validator, unless two of its entries collide |
| `SealedIpcValidator.HeadAuthenticatesLedger` | src/law_firm_digital_twin/sealed_ipc_validator.py:131-161 | two chained ledgers with the same last hash are the same ledger, unless entries collide |
| `PopulationAllocation.RemainderOrderFalls` | src/law_firm_digital_twin/case_manifest.py:541-547 | the order of remainders falls |
| `PopulationAllocation.BumpOrder` | src/law_firm_digital_twin/case_manifest.py:541-547 | the bucket with the larger remainder is bumped first, and on a tie the one with the smaller digest |
| `PopulationAllocation.SequenceFollowsDigests` | src/law_firm_digital_twin/case_manifest.py:550-562 | the sequence lists occurrences numbered from zero up to the share, in the order of their digests and on a tie of their ids |
| `PopulationAllocation.SortTokensAscends` | src/law_firm_digital_twin/case_manifest.py:562-562 | the tokens are returned in ascending order |
| `PopulationAllocation.AllocateAxis` | src/law_firm_digital_twin/case_manifest.py:534-562 | the loops over the allocations dictionary and the tokens return the specified sequence, and raise exactly for a count below one or weights not totalling 100 |
| `PopulationAllocation.SharesTotalCount` | src/law_firm_digital_twin/case_manifest.py:534-549 | for distinct ids and any integer weights totalling 100, the shares total the count |
| `PopulationAllocation.ShareValue` | src/law_firm_digital_twin/case_manifest.py:534-549 | a share is the floor of the exact share, and one more iff the bucket is among the first in the order of remainders |
| `PopulationAllocation.ShareIsFloorOrCeiling` | src/law_firm_digital_twin/case_manifest.py:534-549 | every share is the floor or the ceiling of the exact share |
| `PopulationAllocation.SharesAreOptimal` | src/law_firm_digital_twin/case_manifest.py:534-549 | no allocation of the same total, of whatever integers, has a smaller total distance from the exact shares |
| `PopulationAllocation.SequenceHoldsShares` | src/law_firm_digital_twin/case_manifest.py:550-562 | the returned sequence holds each bucket exactly as often as its share says, and nothing else |
| `PopulationAllocation.SequenceHasCount` | src/law_firm_digital_twin/case_manifest.py:534-562 | with distinct ids and no negative weight the sequence has exactly count elements |
| `PopulationAllocation.HarmlessHasCount` | src/law_firm_digital_twin/case_manifest.py:534-562 | the same holds if buckets that share an id have no weight |
| `PopulationAllocation.SizeIsExact` | src/law_firm_digital_twin/case_manifest.py:534-562 | for weights that are not negative and total 100: the sequence has the requested size for every count iff buckets that share an id have no weight |
| `G2World.DeadlinesSecondary` | src/law_firm_digital_twin/rules.py:20-30 | the second calculator meets the first, and both give exactly three deadlines: the day filed plus the response days, the disclosure days and the cutoff days of the rules |
| `G2World.CalculationsAgree` | src/law_firm_digital_twin/rules.py:11-30 | two calculations agree iff they count from the same day |
| `G2Finance.FinanceLedger.RecordTime` | src/law_firm_digital_twin/g2.py:37-41 | recording raises work and work in progress alike, or refuses and changes nothing |
| `G2Finance.FinanceLedger.SubmitInvoice` | src/law_firm_digital_twin/g2.py:43-49 | an invoice moves all work in progress to submitted, or is refused |
| `G2Finance.FinanceLedger.CarrierAudit` | src/law_firm_digital_twin/g2.py:51-56 | an audit splits submitted into approved and reduced and overwrites the receivable, or is refused |
| `G2Finance.FinanceLedger.AppealReduction` | src/law_firm_digital_twin/g2.py:58-64 | an appeal moves an amount from reduced to approved and receivable, or is refused |
| `G2Finance.FinanceLedger.ApplyPayment` | src/law_firm_digital_twin/g2.py:66-70 | a payment moves an amount from receivable to cash, or is refused |
| `G2Finance.BillingIsConserved` | src/law_firm_digital_twin/g2.py:37-81 | over every sequence of operations all amounts stay non-negative, work is work in progress plus submitted, submitted less approved and reduced is what was invoiced since the last audit, and receivable plus cash less approved is what was paid before it |
| `G2Finance.ReconcilesExactlyWhen` | src/law_firm_digital_twin/g2.py:72-81 | the three identities hold iff nothing was invoiced since the last audit and nothing was paid before it |
| `G2Finance.ReceivableIs` | src/law_firm_digital_twin/g2.py:37-70 | what is owed is what the last audit approved, plus what appeals recovered since, plus what was paid before that audit, less all payments |
| `G2Finance.LedgerIsHistory` | src/law_firm_digital_twin/g2.py:37-70 | every balance in terms of the operations taken: time recorded and invoiced, the last audit, appeals since and ever, payments |
| `G2Finance.TakenExactlyWhen` | src/law_firm_digital_twin/g2.py:37-70 | which operations are taken, in terms of the operations taken before |
| `G2Finance.AuditReconcilesExactlyWhen` | src/law_firm_digital_twin/g2.py:51-81 | right after an audit the three identities hold iff nothing had been paid |
| `G2Finance.OverdrawnExactlyWhen` | src/law_firm_digital_twin/g2.py:37-81 | after any operations more was received or is owed than was approved iff something was paid before the last audit |
| `G2Evidence.PreservationRestarts` | src/law_firm_digital_twin/g2.py:330-335 | preservation takes every custody log back to its first step, from any phase |
| `G2Evidence.CollectionIsAtomic` | src/law_firm_digital_twin/g2.py:336-345 | with distinct ids, collection moves the whole inventory iff it is preserved, and otherwise changes nothing |
| `G2Evidence.CollectionNeedsDistinctIds` | src/law_firm_digital_twin/g2.py:330-345 | for every inventory: collection after preservation succeeds iff the ids are distinct, and one that is refused has always changed the file |
| `G2Evidence.ReviewIsAtomic` | src/law_firm_digital_twin/g2.py:346-373 | with distinct ids, review moves the whole inventory iff it is collected, and otherwise changes nothing |
| `G2Evidence.ProductionIsAtomic` | src/law_firm_digital_twin/g2.py:374-399 | with distinct ids, production succeeds iff the inventory is reviewed with something selected, and otherwise changes nothing |
| `G2Kernel.G2WorldKernel.Collect` | src/law_firm_digital_twin/g2.py:336-345 | the collection loop, as specified artifact by artifact, including where it stops |
| `G2Kernel.G2WorldKernel.Review` | src/law_firm_digital_twin/g2.py:346-373 | the review loop and its table of claims, as specified artifact by artifact |
| `G2Kernel.G2WorldKernel.Produce` | src/law_firm_digital_twin/g2.py:374-399 | the production loop over the reviewed ids |
| `G2Kernel.G2WorldKernel.Transition` | src/law_firm_digital_twin/g2.py:250-514 | every verb changes projection, ledger, authority and knowledge as specified, or is refused for the specified reason |
| `G2Kernel.G2WorldKernel.Submit` | src/law_firm_digital_twin/g2.py:165-212 | the gate, the transition and the event log give the outcome and the whole next state that the run theorems speak of |
| `G2Runs.RunAll` | src/law_firm_digital_twin/g2.py:165-212 | submitting any list of commands to a new kernel gives the state that the run theorems speak of |
| `G2Runs.StepKeeps` | src/law_firm_digital_twin/g2.py:165-514 | every step keeps that rights are earned, that events follow the chain, that the ledger is that of the events, that the evidence is in one phase, and that deadlines are dual-controlled |
| `G2Runs.CloseIsForced` | src/law_firm_digital_twin/g2.py:165-514 | in every run with an accepted close, whatever the payloads grant, the first acceptances of the thirteen verbs from referral to close come in the order of the chain, the route's own resolution verb among them |
| `G2Runs.CloseReconciles` | src/law_firm_digital_twin/g2.py:497-511 | every accepted close happens with all three identities true, nothing invoiced since the last audit and nothing paid before it |
| `G2Runs.OwedAtClose` | src/law_firm_digital_twin/g2.py:476-511 | at an accepted close money is still owed iff the payments taken are less than what the last audit approved plus what appeals recovered since |
| `G2Runs.RejectionIsAtomic` | src/law_firm_digital_twin/g2.py:165-233 | in every reachable state with distinct artifact ids, a command that raises changes nothing but the clock, the denials and, at the oracle boundary, the counter |
| `G2Runs.CollectionAfterPreservation` | src/law_firm_digital_twin/g2.py:165-345 | in every state, a collection that passes the gate right after an accepted preservation is accepted iff the ids are distinct, and changes the evidence file even if refused |
| `G2Runs.CustodyFollowsStatus` | src/law_firm_digital_twin/g2.py:330-399 | in every reachable state with distinct artifact ids each custody log is exactly the prefix that the status of its artifact implies; its days do not fall if the artifact has the three custody steps that the simulator gives it |
| `G2Runs.DeadlinesAreDualControlled` | src/law_firm_digital_twin/g2.py:301-329 | recorded deadlines were calculated by one actor and counted again by another from the same day; the check for different actors never refuses anything |
| `G2Records.RecordedDeadlines` | src/law_firm_digital_twin/g2.py:301-329 | in every reachable state the recorded deadlines are exactly three: the filing day of the last accepted verification plus the response days, the disclosure days and the cutoff days of the rule pack |
| `G2Records.VerificationAcceptedWhen` | src/law_firm_digital_twin/g2.py:312-329 | in every reachable state a verification that passes the gate is accepted iff it counts from the day of the last calculation |
| `G2Rights.HeldIffEntitled` | src/law_firm_digital_twin/g2.py:235-300 | in every reachable state an actor holds an authority iff it started with it or the history of accepted commands gave it |
| `G2Rights.KnownIffTold` | src/law_firm_digital_twin/g2.py:235-410 | in every reachable state an actor knows exactly what it knew at the start and what accepted verbs told it |
| `G2Rights.PassesGateExactlyWhen` | src/law_firm_digital_twin/g2.py:165-190 | in every reachable state a command passes the gate iff it is on this matter, by an actor the verb is reserved for, in its role, and history entitles the actor to the authority and has told it the knowledge that the verb and the command ask for |
| `G2Rights.DenialReasons` | src/law_firm_digital_twin/g2.py:165-190 | which reason a denial gives, check by check, and that it lists all missing rights |
| `G2Records.AcceptedExactlyWhen` | src/law_firm_digital_twin/g2.py:250-514 | in every reachable state a command that passes the gate, evidence and deadline verification apart, is accepted iff the history of the matter and the amounts of the ledger allow it |
| `G2Records.EventsAreNumbered` | src/law_firm_digital_twin/g2.py:191-212 | in every reachable state events are numbered from one at rising times, and clock and denials add up to the number of commands |
| `G2Records.OracleIsNeverRead` | src/law_firm_digital_twin/g2.py:176-178 | no command ever reads the oracle; attempts are counted iff the lawyer makes them on this matter in that role |
| `G2Records.OutcomeIsThatOfThePosture` | src/law_firm_digital_twin/g2.py:436-457 | in every reachable state outcome and milestones are those of the posture and the route iff the resolution of the route was accepted, and no other resolution ever is |
| `G2Records.StatusFollowsVerb` | src/law_firm_digital_twin/g2.py:250-514 | the status of the matter after each accepted verb |
| `G2Records.TimeSheetMatchesLedger` | src/law_firm_digital_twin/g2.py:458-467 | in every reachable state the time sheet lists the recorded work in order and adds up to the work in the ledger |
| `G2Records.FlagsFollowEvents` | src/law_firm_digital_twin/g2.py:250-514 | in every reachable state holds, deposition, expert report, closing conditions and the closed flag are what the events say |
| `G2Records.EvidenceOnRecord` | src/law_firm_digital_twin/g2.py:330-399 | in every reachable state with distinct artifact ids each custody log is the one of its status, step by step, and only responsive artifacts that are not privileged are reviewed or produced |
| `G2Records.NothingPrivilegedIsProduced` | src/law_firm_digital_twin/g2.py:374-399 | in every reachable state with distinct artifact ids what was produced is nothing before the first production, and from then on exactly what is responsive and not privileged |
| `G2Records.ReconciledExactlyWhen` | src/law_firm_digital_twin/g2.py:484-496 | the finances are found reconciled iff the closeout is finalized while the three identities hold and nothing is owed |
| `Berean.ConflictsAreDisputes` | src/law_firm_digital_twin/berean.py:243-251 | a fact is listed as conflicting iff two claims give it different values |
| `Berean.ConflictsAscend` | src/law_firm_digital_twin/berean.py:243-251 | the list of conflicting facts ascends strictly |
| `Berean.DetectConflicts` | src/law_firm_digital_twin/berean.py:243-251 | the nested loops list the conflicting facts of the produced artifacts |
| `Berean.AuditCustody` | src/law_firm_digital_twin/berean.py:113-134 | no custody error iff every produced artifact has a rising, complete, hash-stable log |
| `Berean.CustodyAuditIsExact` | src/law_firm_digital_twin/berean.py:113-134 | in each phase of an inventory with distinct ids and the custody steps that the simulator gives, the custody audit passes iff every produced artifact has the status of a produced one |
| `Berean.AuditPassesInPhase` | src/law_firm_digital_twin/berean.py:113-134 | for such an inventory, the custody audit passes iff nothing was produced or the inventory is in the phase of production |
| `G2Runs.RunsAgreeWithBerean` | src/law_firm_digital_twin/berean.py:243-251 | in every reachable state with distinct artifact ids where something was produced, the conflicts listed at review are those that Berean detects |
| `G2Runs.RunsPassCustodyAudit` | src/law_firm_digital_twin/berean.py:113-134 | in every reachable state of an inventory with distinct ids and the custody steps that the simulator gives, the custody audit passes iff every produced artifact still has the status of a produced one, which a later preservation takes away |
| `G2Closure.ScriptCloses` | src/law_firm_digital_twin/g2.py:165-514 | a run of eighteen commands closes the matter of every world whose ids are distinct and that has something to produce, with ten still owed after a late appeal |
| `G2Closure.MatterCanClose` | src/law_firm_digital_twin/g2.py:165-514 | some run of a world accepts a close iff its artifact ids are distinct and some artifact is responsive and not privileged; then some run also closes with money owed |
| `G2Closure.AtomicityNeedsDistinctIds` | src/law_firm_digital_twin/g2.py:165-233 | in all reachable states of a world every rejected command changes nothing but clock, denials and counter iff the artifact ids are distinct |
| `G2Repeats.CustodyAuditFollowsEvents` | src/law_firm_digital_twin/berean.py:113-134 | in every reachable state of an inventory with distinct ids and the custody steps that the simulator gives, the custody audit fails iff something was produced and a preservation was accepted after the last accepted production |
| `G2Repeats.PreservationFailsAudit` | src/law_firm_digital_twin/g2.py:330-399 | production and then preservation once more, in every world with something to produce: the second preservation is accepted, and the audit, which passed, fails |
| `G2Repeats.OverdrawnExactlyWhen` | src/law_firm_digital_twin/g2.py:472-483 | in every reachable state the ledger is overdrawn iff an audit was accepted after a payment of something |
| `G2Repeats.OverdrawnNeverCloses` | src/law_firm_digital_twin/g2.py:497-512 | once the ledger is overdrawn no later close is accepted, whatever commands come in between |
| `G2Repeats.SecondAuditRulesOutClose` | src/law_firm_digital_twin/g2.py:472-512 | auditing a paid invoice once more is accepted, and no continuation closes the matter, although another continuation of the same commands would have |

## Left out

- Envelope checks of the schedule manifest and the trace header (revisions, flags, digests, forbidden text) are one boolean each.
- Ties beyond the submission ordinal in the schedule's sort key: ordinals of a valid manifest differ, so later components never decide.
- The simulation clock advances tick by tick; SimPy jumps from event to event, which visits a subset of the same ticks.
- SimPyAdapter.Plan: when jobs of different resources break both ceilings in the same tick, which of the two is named depends on SimPy's event numbers and is left open.
- ScheduleValidator.QualifySchedule: the check of the runtime version and the evidence of non-interference are not part of it.
- The order of errors within a list, and the wording of messages, where several errors are reported.
- `build_g2_schedule_manifest` and the non-interference evidence of the scheduler: fixed tables and flags.
- Decision ids, constant flags, integrity checks of SQLite and `ORDER BY`: rows are listed in the order of their keys.
- The stage table of the finance lifecycle is a parameter; stage counts and the journal hash of a snapshot are derived values.
- FrameCodec.AcceptedFramesAreEncodings: is about JSON whose numbers are integers and whose strings are well-formed; the code also accepts floats, NaN and escaped lone surrogates, which the modelled reader rejects.
- Canonical JSON of floats, decimals, dataclasses, enumerations and sets; lone surrogates in strings, Python's limits on digits and on recursion depth.
- FrameCodec.DecodeFrame: a payload with non-ASCII bytes is rejected with one error, where the code may name the rejection differently.
- Interleavings of several threads inside one authorization, and fields of requests that are not of their declared types.
- The validators of single capabilities, requests and external receipts: rebuild-and-compare.
- `build_population_blueprints`: it indexes the allocated sequences.
- Artifacts without any custody step, for which the code's preservation raises an index error.
- G2 payloads with missing keys, decimal rounding, and the actor table other than the one of the simulator's personas.
- G2 event hashes, artifact hashes of depositions and opinions, and the enriched payloads of events.
- The other Berean checks: each reads a few fields of the final projection.
- Command-line tools, pipes, file output, corpus rendering, registries, domain packs and the older simulation kernel.
