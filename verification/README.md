# The evidence rules of PTR, modelled and proved

The research scripts of PTR decide what may count as evidence: which table was frozen, which runs belong to an
aggregate, which manifest may still be edited, which tests a contract may cite, and what verdict a contrast earns.
This project models those scripts in Dafny and proves what they are for. `dafny verify dfyconfig.toml` checks all of it.

| area | files |
|---|---|
| Canonical text: a printer for the digests, a reader that inverts it, the text RFC 8785 (JSON Canonicalization Scheme) prescribes | `CanonicalJson.dfy`, `CanonicalRoundTrip.dfy`, `Rfc8785.dfy`, `Preregistration.dfy` |
| Cited tests: the syntax of a module, its execution, the analysis that finds test cases, an exact one beside it, and which tests are collected | `PythonAst.dfy`, `ModuleExecution.dfy`, `TestCases.dfy`, `CarefulAnalysis.dfy`, `TestCasesSound.dfy`, `CollectedTests.dfy` |
| Publishing an aggregate: a directory that power losses may roll back to any unsynced part | `Publishing.dfy` |
| Watching provenance files while code rewrites some of them | `ProvenanceWatch.dfy` |
| Commit history: stale markers, frozen states and statuses that never go back | `CommitGraph.dfy`, `StaleMarker.dfy`, `StatusGate.dfy` |
| Binding seeds to run records, in the aggregator and in the gate | `SeedBinding.dfy` |
| Admission, statistics and verdicts of the baseline contrasts | `Evidence.dfy`, `Statistics.dfy`, `Contrasts.dfy`, `AdmittedReadings.dfy` |
| Verdicts of the ablations | `Ablation.dfy` |
| Scores of component candidates | `Scoring.dfy` |
| The exploratory aggregator | `Aggregation.dfy` |
| Two equalities of frozen states | `TypedValues.dfy` |
| Paths that stay in the repository | `RepositoryPaths.dfy` |

The model takes the form of the code. Loops are methods with invariants, proved against functions or predicates that
say what the loop is for. The results directory, the checkout and the watch are classes with the state the code
updates. Pure recursion stays a function.

Some properties turned out not to hold everywhere. Each has a lemma with an input, or a whole family, that breaks it,
and another that says exactly when it holds:

- `canonical_text` writes what RFC 8785 prescribes exactly on values without control characters whose integers are
  written plainly there. It leaves control characters as they are, where section 3.2.2.2 escapes them, and it writes
  every integer in full, where section 3.2.2.3 writes the shortest text of a double (`Rfc8785.AgreesWithRfc8785`).
  Within 2^53 - 1 of zero only the control characters matter (`Rfc8785.AgreesOnExactIntegers`). Beyond it odd integers
  have no text at all (`Rfc8785.OddIntegersAreNoDoubles`), 2^60 has a shorter one (`Rfc8785.ADoubleWithAShorterText`),
  and from 10^21 on all do (`Rfc8785.LargeIntegersAreNotPlain`). The preregistration check refuses all of these, so no
  registered table is affected.
- `rebound_names` does not look into the header of a `def`, `class` or `lambda`. A default value that rebinds
  a test case goes unseen (`TestCasesSound.HeaderStoreIsMissed`). `module_cases` is sound on a module exactly when a
  more careful analysis confirms what it returns (`TestCasesSound.SoundExactlyWhenConfirmed`).
- `rebound_names` reports names that nothing rebinds: targets of a comprehension, a bare annotation, a `global`
  declaration. A test case mentioned so is dropped though every run exposes it
  (`TestCasesSound.MentionedCaseIsDropped`). `module_cases` is complete exactly when it keeps what the careful analysis
  knows (`TestCasesSound.CompleteExactlyWhenKept`).
- `python_tests` reports a test that its class body deletes or rebinds later
  (`CollectedTests.DeletedTestIsStillFound`). `unittest` looks a test up along the method resolution order. It collects
  the test after every run exactly when the first class there whose body can bind the name is certain to leave it bound
  to something to call (`CollectedTests.CitedTestsAreCollected`), be it inherited or not
  (`CollectedTests.InheritedTestIsCollected`). Where a base unknown to the module may come first, that base decides.
- A watched file that is created and removed again between two looks is not reported as a file. It shows in its
  directory exactly when that directory was stamped (`ProvenanceWatch.CreatedAndRemovedIsMissed`).
- Two publishers at once can leave the files of two aggregates side by side (`Publishing.TwoPublishersCanMix`). Once
  both are done the files match exactly when one of them made both the last metrics and the last record, or both
  published the same metrics (`Publishing.TwoPublishersMatchExactly`).
- `decide` of the ablations raises where an endpoint has no value, even for a contrast that a failed gate blocks anyway.
  It raises exactly on the faults `Ablation.DecideRaisesExactly` lists, and fails closed on everything else.
- `is_repository_path` accepts a name with a colon further on, which `outside_repository` refuses
  (`RepositoryPaths.AStreamIsARepositoryPath`). Of the paths `is_repository_path` accepts, `outside_repository` accepts
  exactly those without a colon (`RepositoryPaths.RepositoryPathsStayInside`).

## Model

| member | source | states |
|---|---|---|
| `CanonicalJson.SortEntries` | scripts/experiment_records.py:1422-1424 | sorting a table's items loses and invents no entry |
| `CanonicalJson.ReplacementsEscape` | scripts/experiment_records.py:1401-1425 | replacing backslashes first and quotes second escapes every character exactly once |
| `CanonicalRoundTrip.SortEntriesSorts` | scripts/experiment_records.py:1401-1425 | a table's entries are printed in strictly ascending order of their keys |
| `CanonicalRoundTrip.ReadsText` | scripts/experiment_records.py:1401-1425 | whatever may follow a value's text, a reader of it yields the document the value means and stops at its end |
| `CanonicalRoundTrip.ParseInvertsText` | scripts/experiment_records.py:1401-1425 | reading inverts printing on every nested value that has a text |
| `CanonicalRoundTrip.MeaningFixesText` | scripts/experiment_records.py:1401-1425 | the order in which tables were filled never shows in the text |
| `CanonicalRoundTrip.TextIsOneToOne` | scripts/experiment_records.py:1401-1425 | two values share a text if and only if they mean the same document |
| `Rfc8785.AgreesWithRfc8785` | scripts/experiment_records.py:1401-1425 | the text is the one RFC 8785 prescribes if and only if no string in the value holds a control character and each integer is a double of at most 21 digits that no shorter text denotes |
| `Rfc8785.AgreesOnExactIntegers` | scripts/experiment_records.py:1365-1425 | on integers within 2^53 - 1 of zero that comes to: if and only if no string holds a control character |
| `Rfc8785.ExactIntegersArePlain` | scripts/experiment_records.py:1365-1368 | every integer below 2^53 is written in full by RFC 8785 |
| `Rfc8785.OddIntegersAreNoDoubles` | scripts/experiment_records.py:1365-1368 | an odd integer beyond 2^53 is no double, so RFC 8785 gives it no text |
| `Rfc8785.ADoubleWithAShorterText` | scripts/experiment_records.py:1365-1368 | 2^60 is a double that RFC 8785 writes with other digits than its own |
| `Rfc8785.LargeIntegersAreNotPlain` | scripts/experiment_records.py:1365-1368 | from 10^21 on RFC 8785 writes no integer in full |
| `Preregistration.ProblemFreeIsRegistrable` | scripts/experiment_records.py:1371-1398 | a value has no problem if and only if it is a flag, an exactly representable integer, printable ASCII text, or a list of all integers or all texts such as these |
| `Preregistration.PreregistrationCanonical` | scripts/experiment_records.py:1433-1444 | the loop over the table accepts exactly the registrable tables and returns the text RFC 8785 prescribes for them |
| `Preregistration.DigestBindsTable` | scripts/experiment_records.py:1447-1453 | two accepted tables have one text, so one digest, if and only if they are one table |
| `PythonAst.ReboundNames` | scripts/check_contract_citations.py:123-166 | the worklist ends with exactly the names of the nodes it may enter |
| `PythonAst.ReportedAreStores` | scripts/check_contract_citations.py:123-166 | only names the statement can rebind are reported, if and only if those it merely mentions (comprehension targets, bare annotations, `global`) are among them |
| `PythonAst.ReportIsComplete` | scripts/check_contract_citations.py:123-166 | where no scope's header stores, the report is exactly the names the statement can rebind and those it mentions |
| `TestCases.ClearNames` | scripts/check_contract_citations.py:228-231 | forgetting names one by one comes to forgetting them all |
| `TestCases.CreditModules` | scripts/check_contract_citations.py:235-246 | the loop credits exactly the names through which `import` binds `unittest` |
| `TestCases.CreditCases` | scripts/check_contract_citations.py:247-254 | the loop credits exactly the names through which `from unittest import` binds a case class |
| `TestCases.CreditImport` | scripts/check_contract_citations.py:235-254 | an import credits modules or case classes, and leaves the rest of what is known |
| `TestCases.ModuleCases` | scripts/check_contract_citations.py:169-260 | the walk over a module's statements returns the classes the analysis, defined statement by statement, keeps |
| `TestCases.PythonTests` | scripts/check_contract_citations.py:263-297 | the tests found are exactly the `test*` methods in the bodies of the returned classes |
| `CarefulAnalysis.RunHolds` | scripts/check_contract_citations.py:169-260 | after every run of a module, whatever its expressions evaluate to, each name the careful analysis knows is bound to what it is known as, ancestors included |
| `CarefulAnalysis.CarefulIsExact` | scripts/check_contract_citations.py:169-260 | the careful analysis exposes a class as a case if and only if every run does |
| `TestCasesSound.SoundExactlyWhenConfirmed` | scripts/check_contract_citations.py:169-260 | `module_cases` returns only classes every run exposes, if and only if the careful analysis exposes all of them |
| `TestCasesSound.CompleteExactlyWhenKept` | scripts/check_contract_citations.py:169-260 | it returns every class all runs expose, if and only if it returns all the careful analysis exposes |
| `TestCasesSound.SoundOnOpenModules` | scripts/check_contract_citations.py:169-260 | on every module whose statements store openly each class it returns is exposed after every run |
| `TestCasesSound.SoundAndCompleteOnOpenModules` | scripts/check_contract_citations.py:169-260 | where besides no statement mentions a name it cannot rebind it returns exactly the classes every run exposes |
| `CollectedTests.LeftAtWorst` | scripts/check_contract_citations.py:263-297 | no run of a class body leaves a name worse than its last statements to bind, unbind or define it allow |
| `CollectedTests.LineKeepsOrders` | scripts/check_contract_citations.py:263-297 | the method resolution order of a class keeps the order of its bases and the order of each of them, and has no other class |
| `CollectedTests.CollectedExactly` | scripts/check_contract_citations.py:263-297 | from a class every run exposes `unittest` collects a test after every run if the first class along the resolution order whose body can bind the name leaves it callable at worst; if it does not, or the whole order is known and none binds it, some run misses the test |
| `CollectedTests.CitedTestsAreCollected` | scripts/check_contract_citations.py:263-297 | on a module whose statements store openly that holds of every returned class, as an if and only if unless a base unknown to the module decides |
| `CollectedTests.OwnBodyDecides` | scripts/check_contract_citations.py:263-297 | the body of an exposed class decides by itself wherever it does not leave the name unbound, whatever its bases |
| `CollectedTests.InheritedTestIsCollected` | scripts/check_contract_citations.py:263-297 | a class whose body leaves the name unbound, never having bound it or having deleted it, gives after every run the test its only base gives |
| `CollectedTests.FoundButNotCollected` | scripts/check_contract_citations.py:263-297 | a test of a returned class that is not left callable so is found all the same, and some run does not collect it |
| `CollectedTests.DeletedTestIsStillFound` | scripts/check_contract_citations.py:263-297 | a concrete module, with `del test_a` after `def test_a` in a class on `TestCase` alone, on which that happens |
| `TestCasesSound.HeaderStoreIsMissed` | scripts/check_contract_citations.py:123-166 | a `def` whose decorators or header rebind a known case escapes: the class is still returned and some run hides it |
| `TestCasesSound.WalrusInADefaultIsMissed` | scripts/check_contract_citations.py:123-166 | a concrete module of three statements on which that happens |
| `TestCasesSound.MentionedCaseIsDropped` | scripts/check_contract_citations.py:123-166 | a statement that mentions a known case without rebinding it drops the class, which every run still exposes |
| `TestCasesSound.ComprehensionTargetIsDropped` | scripts/check_contract_citations.py:123-166 | a concrete module, with the case as the target of a comprehension, on which that happens |
| `Publishing.NoProblemIsOneAggregate` | scripts/experiment_records.py:1588-1644 | there is no problem if and only if the record, the metrics and the mutations in the directory are one aggregate |
| `Publishing.ReadBack` | scripts/experiment_records.py:1513-1521 | reading back finds no problem if and only if both files are the new ones and the record, the metrics and the mutation evidence are one aggregate |
| `Publishing.ResultsDirectory.MoveIntoPlace` | scripts/experiment_records.py:1500-1512 | the moves take the disk through the protocol's states, all six of them exactly when none fails, and leave the marker |
| `Publishing.ResultsDirectory.Publish` | scripts/experiment_records.py:1475-1522 | refused or failed before staging ends: nothing touched; otherwise the disk goes through the publication's states and no others, to the last exactly on success; success leaves the new pair, consistent with its evidence, and no stale marker; the marker goes only then |
| `Publishing.PublishedStatesAreSafe` | scripts/experiment_records.py:1475-1522 | every state `publish_aggregate` takes the disk through is safe for the pairs there were and the new one |
| `Publishing.ProtocolIsSafe` | scripts/experiment_records.py:1475-1522 | every state one publication passes through, from any safe disk, is safe whatever part of the unsynced moves a power loss keeps |
| `Publishing.OldPairOrNew` | scripts/experiment_records.py:1475-1522 | event by event and from any disk: what a power loss can leave is no `run.json`, a pair it could have left before the event, or the event's new pair |
| `Publishing.NoOldPairAfterTheFlush` | scripts/experiment_records.py:1504-1509 | once the removal was synced all that can be left is no `run.json` or the new pair |
| `Publishing.FinishedIsDurable` | scripts/experiment_records.py:1504-1509 | after the six moves whatever a power loss leaves holds exactly the new pair |
| `Publishing.FinishedStays` | scripts/experiment_records.py:1475-1522 | a finished pair stays through any power losses until another publication begins to move files |
| `Publishing.OnlyAFinishedPublicationClears` | scripts/experiment_records.py:1513-1522 | a marker no power loss could remove stays so through every event but a publication that found all well |
| `Publishing.ClearedBesideItsPair` | scripts/experiment_records.py:1513-1522 | in every directory a power loss can leave, a marker an event took away is gone beside the pair of that very publication, one aggregate with its evidence |
| `Publishing.MarkerIsNeverLost` | scripts/experiment_records.py:1475-1522 | over any history a marker is missing only after a publication that found all well |
| `Publishing.PairsNeverMix` | scripts/experiment_records.py:1475-1522 | over any sequence of publications, each cut at any step, and of power losses, a pair that is or can be left is the first one or one a publication wrote, and no later publication has removed it for good |
| `Publishing.AlwaysMatched` | scripts/experiment_records.py:1475-1522 | a directory that starts without `run.json`, or with a matching pair, never holds any other |
| `Publishing.WithoutTheFlushPairsMix` | scripts/experiment_records.py:1281-1293 | without the sync after the removal a power loss can leave the old record beside new metrics |
| `Publishing.LastInstallsStand` | scripts/experiment_records.py:1504-1509 | however two publishers interleave, the metrics of the last to install metrics and the record of the last to install one stand |
| `Publishing.TwoPublishersMatchExactly` | scripts/experiment_records.py:1475-1522 | over all interleavings of two publishers the files match in the end if and only if one of them made both last installs or both published the same metrics |
| `Publishing.TwoPublishersCanMix` | scripts/experiment_records.py:1475-1522 | an interleaving that mixes, which `aggregate_problems` reports |
| `ProvenanceWatch.Watch.constructor` | scripts/experiment_records.py:834-842 | the watch of a sound checkout begins with a stamp of every file under its pathspecs |
| `ProvenanceWatch.ReservedFilesAreSeen` | scripts/experiment_records.py:844-852 | a reserved file differs from its stamp if and only if it was written or removed since, unless it was not there at either look |
| `ProvenanceWatch.ClimbFrom` | scripts/experiment_records.py:802-805 | climbing from a name until a directory already found adds exactly the directories above it |
| `ProvenanceWatch.DirectoriesAbove` | scripts/experiment_records.py:797-806 | the root and every directory that holds one of the names, or holds a directory that does |
| `ProvenanceWatch.Watch.StampDirectories` | scripts/experiment_records.py:854-865 | exactly the directories above the watched and reserved files are stamped, none of them shows as moved, and nothing else of the watch changes |
| `ProvenanceWatch.DisturbedExactly` | scripts/experiment_records.py:809-817 | an event moves the stamp of exactly the directories in which a file or directory comes to be or ceases to be, those made on the way to a new file included |
| `ProvenanceWatch.DirectoriesShowTheirEntries` | scripts/experiment_records.py:893-921 | a stamped directory is reported if and only if an entry was added to it or removed from it since, or it was made |
| `ProvenanceWatch.Watch.BeginRewriting` | scripts/experiment_records.py:867-882 | entering a block records what had already changed in the files it covers |
| `ProvenanceWatch.Watch.EndRewriting` | scripts/experiment_records.py:867-882 | leaving a block stamps its files afresh, however it ended |
| `ProvenanceWatch.Watch.Changes` | scripts/experiment_records.py:884-925 | the report is what had been found before and what differs from its stamp now |
| `ProvenanceWatch.ReportsExactlyWhatShows` | scripts/experiment_records.py:820-925 | after any interleaving of writes, removals and blocks a file is reported if and only if a change to it showed at a look |
| `ProvenanceWatch.SeesUndoneEdits` | scripts/experiment_records.py:820-925 | a file that was there whenever it was stamped is reported, whatever it holds now, if and only if some write or removal is not forgiven, that is, followed first by the end of a block over the file and not by the beginning of another or the last look |
| `ProvenanceWatch.SeesWhatIsDoneOutside` | scripts/experiment_records.py:820-925 | with one block over the file at a time: if and only if something wrote or removed it outside a block that covers it |
| `ProvenanceWatch.CreatedAndRemovedIsMissed` | scripts/experiment_records.py:884-925 | a file created and removed again between two looks is not reported, and its directory is if and only if it was stamped |
| `CommitGraph.ReachesAntisymmetric` | scripts/experiment_records.py:936-938 | no two commits are each on the other's history |
| `CommitGraph.HistoryIsFixed` | scripts/experiment_records.py:936-938 | adding commits changes the history of none |
| `StaleMarker.ChangesAfterResults` | scripts/experiment_records.py:970-995 | the commits returned are exactly the changes the rule accepts, from git's three listings |
| `StaleMarker.AcceptedExactlyFirstChanges` | scripts/experiment_records.py:941-995 | the rule accepts exactly the changes after the results with no change between, whichever way git orders its listings |
| `StaleMarker.FirstChangeExists` | scripts/experiment_records.py:970-995 | where provenance changed after the results there is a first change, on the history of any of the changes |
| `StaleMarker.FirstChangesStay` | scripts/experiment_records.py:970-995 | however HEAD moves on, merges included, a commit on its old history is a first change if and only if it was one |
| `StaleMarker.MarkerErrors` | scripts/experiment_records.py:1852-1921 | a stale marker has no error if and only if it is honest |
| `StaleMarker.HonestMarkersStay` | scripts/experiment_records.py:1852-1921 | an honest marker stays honest however HEAD moves on |
| `StatusGate.MayFollowIsReachability` | scripts/check_research_gates.py:201-212 | a status may follow another if and only if some number of steps forward lead from one to the other |
| `StatusGate.MayFollowIsAPartialOrder` | scripts/check_research_gates.py:201-212 | on the five statuses it is a partial order |
| `StatusGate.After` | scripts/check_research_gates.py:1692-1695 | the memo answers as git would, and stays true of git |
| `StatusGate.FrozenAnchors` | scripts/check_research_gates.py:1690 | the frozen commits of the listing, in order, with their statuses |
| `StatusGate.AllAnchors` | scripts/check_research_gates.py:1690-1700 | the anchors are the freezes and every superseding with a freeze behind it, and no others |
| `StatusGate.FirstBroken` | scripts/check_research_gates.py:1703-1712 | a listed commit is reported if and only if it holds a status that may not follow an anchor it descends from |
| `StatusGate.StatusRegressions` | scripts/check_research_gates.py:1677-1713 | one error for each listed commit that goes back on an anchor of its own history, in the order of the listing, and none for another |
| `StatusGate.SilentExactlyWhenForward` | scripts/check_research_gates.py:1677-1713 | no error if and only if after every anchor each listed descendant, on any side of any merge, holds only statuses that may follow |
| `StatusGate.FinalStatusesAreFinal` | scripts/check_research_gates.py:1677-1713 | after a frozen completed or failed every listed descendant holds that status or superseded |
| `StatusGate.ForwardAlongALine` | scripts/check_research_gates.py:1677-1713 | of three listed commits on one line statuses only move forward, and a superseding is never left |
| `StatusGate.Freezes` | scripts/check_research_gates.py:1609-1623 | popping and reinserting keys comes to keeping the oldest commit of each state |
| `StatusGate.OneFreezePerState` | scripts/check_research_gates.py:1609-1623 | one entry per distinct frozen state, named by the oldest commit that holds it, in the order of the listing |
| `SeedBinding.SeedRecordDigests` | scripts/experiment_records.py:1543-1568 | it succeeds if and only if all records are readable and each seed ran once, and then names the outcome of each finished run |
| `SeedBinding.ReadRecords` | scripts/check_research_gates.py:2094-2115 | the gate's loop counts the runs of each seed, keeps the digest of each finished one, and finds an error if and only if a record is unreadable or ran another seed |
| `SeedBinding.CheckAggregate` | scripts/check_research_gates.py:2185-2212 | no error if and only if every preregistered seed is bound to its record and no other seed is |
| `SeedBinding.GateSeedChecks` | scripts/check_research_gates.py:2176-2212 | the seed checks pass if and only if the records ran each preregistered seed once, to an end, and the aggregate carries exactly their digests |
| `SeedBinding.OutcomesFixDigests` | scripts/experiment_records.py:1543-1568 | where each seed ran once, its outcomes fix the map of digests |
| `SeedBinding.Agree` | scripts/check_research_gates.py:2176-2212 | gate and aggregator agree: the gate accepts if and only if `seed_record_digests` succeeds with every preregistered seed and the aggregate carries its map |
| `SeedBinding.EachSeedBoundToOneOutcome` | scripts/check_research_gates.py:2176-2212 | each seed of an accepted aggregate is bound to the one record that ran it |
| `Evidence.FillCells` | scripts/aggregate_a0_baseline.py:327-351 | the loop indexes every evidence row under its key, or no index exists |
| `Evidence.IndexRows` | scripts/aggregate_a0_baseline.py:307-379 | it returns a complete index of the rows, or there is none for any seed |
| `Evidence.IndexIsUnique` | scripts/aggregate_a0_baseline.py:307-379 | rows have one index at most |
| `Evidence.Gather` | scripts/aggregate_a0_baseline.py:455-475 | the loop returns the table of the sources, each one's run once and no other, or there is no such table |
| `Evidence.GatheredIsUnique` | scripts/aggregate_a0_baseline.py:455-475 | one table at most is made of the sources |
| `Evidence.CheckTable` | scripts/aggregate_a0_baseline.py:476-488 | the runs gathered are admitted if and only if every seed is there, the records agree and so do the rows of all runs |
| `Evidence.BuildTable` | scripts/aggregate_a0_baseline.py:449-488 | it returns the admitted table of the five sources, or no table is admitted: one kind, one identity, all confirmatory seeds, complete and consistent, with the mask shares a study requires |
| `Evidence.Final` | scripts/aggregate_a0_baseline.py:549-551 | on an admitted table the row, the column and the number are always there |
| `AdmittedReadings.AdmittedIsDecidable` | scripts/aggregate_a0_baseline.py:539-562 | every number a contrast of two arms is decided on is in the admitted table |
| `Statistics.PoolingCommutes` | scripts/aggregate_a0_baseline.py:556-562 | averaging folds within seeds or seeds within folds is the same |
| `Statistics.IntervalEnclosesMean` | scripts/aggregate_m002_v5.py:161-167 | the interval encloses its mean symmetrically |
| `Statistics.IntervalReflects` | scripts/aggregate_m002_v5.py:161-167 | negating the values reflects the interval about zero |
| `Contrasts.CheckSeed` | scripts/aggregate_a0_baseline.py:603-614 | over the folds of one seed: whether all match, and the largest relative difference |
| `Contrasts.ComputeCheck` | scripts/aggregate_a0_baseline.py:596-623 | over all cells: whether all match, and a bound on the differences that is one of them |
| `Contrasts.CheckIsMatched` | scripts/aggregate_a0_baseline.py:596-623 | the check passes if and only if compute is matched in every cell |
| `Contrasts.GateExcludesFalsification` | scripts/aggregate_a0_baseline.py:691-753 | the accuracy gate and the ground for falsification exclude each other |
| `Contrasts.VerdictGrounds` | scripts/aggregate_a0_baseline.py:691-753 | each verdict and label is given if and only if its own ground holds, in which the order of the branches plays no part |
| `Contrasts.MeanOfDifferences` | scripts/aggregate_m002_v5.py:345-349 | averaging differences or differencing averages: the two deciders pool alike |
| `Contrasts.PooledMeanIsMeanOfFolds` | scripts/aggregate_a0_baseline.py:565-580 | the pooled mean is the mean of the folds' means |
| `Contrasts.EachFoldCarriesThePool` | scripts/aggregate_a0_baseline.py:651-688 | where every fold's mean lies above a threshold the pooled mean does |
| `Contrasts.EndpointsReflect` | scripts/aggregate_a0_baseline.py:565-580 | exchanging treatment and control reflects every interval |
| `Contrasts.MatchedBothWays` | scripts/aggregate_a0_baseline.py:596-623 | under the modes that ask for equality compute is matched both ways or neither |
| `Contrasts.SupportsExchangedIsHarmful` | scripts/aggregate_a0_baseline.py:691-753 | a supported contrast exchanged never supports: it is harmful if and only if both arms are learnable and compute is matched that way round too, which the equality modes carry over |
| `Ablation.CommonRuleGrounds` | scripts/aggregate_a0_ablation.py:91-105 | support and falsification have grounds that exclude each other, so the order of the tests does not matter |
| `Ablation.SupportsExchangedIsHarmful` | scripts/aggregate_a0_ablation.py:73-105 | with a positive margin a supported contrast with its arms exchanged is harmful |
| `Ablation.RaisesExactly` | scripts/aggregate_a0_ablation.py:111-374 | the loop raises on a contrast if and only if some endpoint it reads has no value, a negative control is decided by runs without the full arm, or a pair names no attribution arm; neither earlier checks nor blocked arms matter |
| `Ablation.WholeSplitsNeverRaise` | scripts/aggregate_a0_ablation.py:111-129 | a contrast with the full arm on whole test splits never raises |
| `Ablation.RunsThroughExactly` | scripts/aggregate_a0_ablation.py:260-374 | the loop gets through if and only if no contrast raises |
| `Ablation.DecideRaisesExactly` | scripts/aggregate_a0_ablation.py:159-426 | `decide` raises if and only if scores and G3 are in order and there is no seed, or the full arm is competent and a contrast or a report afterwards has an endpoint without a value |
| `Ablation.FaultIsUnique` | scripts/aggregate_a0_ablation.py:159-426 | it raises for one reason at most, the first in order |
| `Ablation.FailsClosed` | scripts/aggregate_a0_ablation.py:159-426 | with scores missing, a gate failed, an incompetent full arm or a leak it raises, or no contrast gets a verdict that claims anything, whatever the study |
| `Ablation.KeptVerdictsFailClosed` | scripts/aggregate_a0_ablation.py:178-426 | so under no id does `decide` keep a verdict that claims anything |
| `Ablation.RecordedIsTheLast` | scripts/aggregate_a0_ablation.py:260-286 | what is recorded under an id is the verdict of the last manipulation check of that id whose arms ran |
| `Ablation.JudgedOnlyAfterItsCheckPassed` | scripts/aggregate_a0_ablation.py:335-347 | a mechanism that relies on a check is judged only if the last earlier check of that id passed |
| `Ablation.SupportHasGrounds` | scripts/aggregate_a0_ablation.py:260-374 | support means no alarm, no blocked arm, a mean of at least the margin, an interval above zero and every seed positive, for the nonlinearity against both arms |
| `Ablation.ClaimsHaveGrounds` | scripts/aggregate_a0_ablation.py:260-374 | every verdict but the silent ones, for or against, has its own grounds in the statistics of arms nothing blocks |
| `Ablation.UnblockedArmsAreLearnable` | scripts/aggregate_a0_ablation.py:223-250 | where nothing is blocked the arms, in the table that decides, are at or above their bars |
| `Ablation.EachInTurn` | scripts/aggregate_a0_ablation.py:260-374 | each verdict is the one on its contrast given the checks recorded before it |
| `Ablation.LastStands` | scripts/aggregate_a0_ablation.py:261-374 | of contrasts of one id the verdict of the last one is kept |
| `Ablation.FillSilent` | scripts/aggregate_a0_ablation.py:188-218 | on the early exits every contrast gets the same silent verdict, or is not tested |
| `Ablation.FillInOrder` | scripts/aggregate_a0_ablation.py:260-374 | the loop decides each contrast in turn, the last of one id standing, or stops at the first that raises |
| `Ablation.DecideAll` | scripts/aggregate_a0_ablation.py:159-426 | it raises on the one fault there is; without one it keeps the verdict of the rule for each contrast, the last of one id standing |
| `Scoring.BestIsBest` | scripts/check_component_protocols.py:250-258 | the best is one of the values and none is better |
| `Scoring.RatioWithin` | scripts/check_component_protocols.py:250-258 | ratios lie between 0 and 1 |
| `Scoring.RatioMonotone` | scripts/check_component_protocols.py:250-258 | a value at least as good never has the lower ratio |
| `Scoring.RatioScaleFree` | scripts/check_component_protocols.py:250-258 | in another unit every ratio is what it was |
| `Scoring.ScoreWithin` | scripts/check_component_protocols.py:228-286 | every score lies between 0 and 1 whatever was reported |
| `Scoring.ScoreMonotone` | scripts/check_component_protocols.py:228-286 | a candidate at least as good everywhere never scores lower |
| `Scoring.ScoreScaleFree` | scripts/check_component_protocols.py:228-286 | a metric in another unit changes no score |
| `Scoring.AppendRatios` | scripts/check_component_protocols.py:263-264 | each candidate that has a ratio gets it appended under the criterion, and nothing else changes |
| `Scoring.GatherMetrics` | scripts/check_component_protocols.py:260-264 | after the loop each candidate holds, per criterion, the ratios of its metrics in order |
| `Scoring.GatherParts` | scripts/check_component_protocols.py:265-268 | the integration parts join them under their criterion |
| `Scoring.ScoreOne` | scripts/check_component_protocols.py:269-285 | the proxies and the weighted sum give the score of the rule, unless a criterion scored for the candidate has no weight |
| `Scoring.AutomatedScore` | scripts/check_component_protocols.py:228-286 | the loops compute the score of the rule for every candidate, or raise at the first with a score under a criterion that has no weight |
| `Aggregation.ReadFields` | scripts/aggregate_experiment.py:244-256 | the metrics of a row, and nothing else, are added under its group and seed, unless a number does not fit |
| `Aggregation.ReadRow` | scripts/aggregate_experiment.py:236-256 | a row is refused if and only if its run printed that name before or a number does not fit; else the tables hold one row more |
| `Aggregation.ReadRuns` | scripts/aggregate_experiment.py:224-256 | the tables hold exactly what the completed runs printed |
| `Aggregation.SortRuns` | scripts/aggregate_experiment.py:203-222 | it succeeds if and only if no seed completed twice, with the completed seeds and the failed runs in order |
| `Aggregation.Groups` | scripts/aggregate_experiment.py:260-276 | one group per printed name, and the flag if and only if some group has a gap |
| `Aggregation.AggregateRuns` | scripts/aggregate_experiment.py:171-279 | it succeeds if and only if the records are admissible, and then reports all the completed runs printed |
| `Aggregation.SeedsAreAccountedForOnce` | scripts/aggregate_experiment.py:264-276 | per group and metric each completed seed is finite, non-finite or missing, and only one of them |
| `Aggregation.NothingIsDropped` | scripts/aggregate_experiment.py:224-276 | every number a completed run printed is in the aggregate under its group, metric and seed |
| `Aggregation.CompleteExactlyWhenNothingIsMissing` | scripts/aggregate_experiment.py:278-279 | complete if and only if no run failed, every declared seed completed, every group was printed by all and every metric is finite for each |
| `TypedValues.SameFloatKeepsBits` | scripts/check_research_gates.py:227-228 | two floats are the same value if and only if their bits agree or both are NaNs of one sign |
| `TypedValues.DateTimeTextIsOneToOne` | scripts/check_research_gates.py:1511-1512 | the ISO text fixes date, time, microseconds and offset |
| `TypedValues.ScalarsAreNoLists` | scripts/check_research_gates.py:1500-1513 | no scalar's typed form is that of a list or a table |
| `TypedValues.TypedIsOneToOne` | scripts/check_research_gates.py:1500-1513 | no two nested values share a typed form |
| `TypedValues.SameValueIsReflexive` | scripts/check_research_gates.py:214-234 | every value, NaN included, is the same as itself |
| `TypedValues.SameValueIsSymmetric` | scripts/check_research_gates.py:214-234 | sameness is symmetric |
| `TypedValues.SameValueIsTransitive` | scripts/check_research_gates.py:214-234 | sameness is transitive |
| `TypedValues.EqualFormsAreTheSameValue` | scripts/check_research_gates.py:1500-1513 | values with equal typed forms are the same value |
| `TypedValues.FormsAgreeWithSameValue` | scripts/check_research_gates.py:1500-1513 | for values with the NaNs a TOML parser makes the two equalities coincide |
| `TypedValues.PayloadsAreToldApart` | scripts/check_research_gates.py:1500-1513 | two NaNs that differ in payload are one value with two forms |
| `TypedValues.OneInstantTwoOffsets` | scripts/check_research_gates.py:229-233 | one instant at two offsets is equal to Python and two values here |
| `RepositoryPaths.OutsideRepository` | scripts/check_research_gates.py:500-528 | a path is refused if and only if it is absolute, on a drive, has a part that is git's, misspelled or a stream, or resolving its steps on a stack leaves the root |
| `RepositoryPaths.AnyPartLeaves` | scripts/check_research_gates.py:518-528 | the depth counter finds exactly the steps that pop an empty stack |
| `RepositoryPaths.InsideAtEveryStep` | scripts/check_research_gates.py:500-528 | an accepted path is inside after every prefix of its steps |
| `RepositoryPaths.JoinedStaysInside` | scripts/check_research_gates.py:610-619 | a path joined to a directory stays inside if and only if the directory does and the path does from there |
| `RepositoryPaths.ResolvesOutside` | scripts/check_research_gates.py:610-619 | a manifest's path is refused if and only if its directory is outside, or the path leaves the root from there |
| `RepositoryPaths.AcceptedNamesAreProper` | scripts/check_research_gates.py:789-814 | what an accepted path resolves to has no part that is git's or that Windows reads otherwise |
| `RepositoryPaths.NamesWhatItSays` | scripts/check_research_gates.py:816-839 | a repository path resolves to the very names it is written with |
| `RepositoryPaths.RepositoryPathsStayInside` | scripts/check_research_gates.py:816-839 | a repository path is accepted by `outside_repository` if and only if it holds no colon |
| `RepositoryPaths.AStreamIsARepositoryPath` | scripts/check_research_gates.py:816-839 | a path with a colon that the one accepts and the other refuses |

## Left out

- Files, git, TOML and JSON parsing: they appear as values and listings. A digest stands for the bytes it is taken of, so collisions of SHA-256 are outside the model.
- Canonical text of floats and dates: the code refuses them, and so does the model.
- What an arbitrary Python call does to module globals, to attributes of modules and classes, and metaclasses of imported bases: execution binds names only through the statements of the module and of its class bodies.
- `python_tests` on text that does not parse.
- Statements that raise: a class statement whose bases have no common order, or a name that is not bound, ends a Python run, and the model lets it go on.
- Publishing: names of temporary files, file modes and the cleanup of leftovers; `sync_directory` is taken to reach the disk, and where it silently fails the claim does not apply.
- The watch: time stamps are taken to grow with every write, so two writes within one tick of a coarse clock are outside the model; so are links, changes of mode, directories that are renamed or removed, and paths with doubled slashes.
- Stale markers: which paths are provenance is a fixed predicate on commits, and the wording of errors is dropped.
- Other checks of `archived_errors` than those on seeds, and the reading of committed versions of an aggregate.
- `load_criteria`, the minima and ratios reported beside the gates, the learning-rate file and all writers of `aggregate_a0_baseline.py`.
- Floating-point rounding: sums, means, deviations and scores are over exact reals, with the square root as a parameter of which its defining property is known.
- The gates outside `decide` of `aggregate_a0_ablation.py`, criteria that lack a field their kind calls for, and the figures reported beside a verdict: of mask shares, dose responses and transfers only whether they can be computed is modelled.
- `validate_protocol` and everything around `automated_score` in `check_component_protocols.py`.
- The comparisons of commit, worktree and toolchain between records, and the means and deviations of a summary, in `aggregate_experiment.py`.
- The JSON text and the hash of a typed form: the forms themselves are compared.
- Letters outside ASCII when a path part is put in lower case: none of them matters to the two names it is compared with.
- The runner, the experiment manifests, the other checkers and the Rust workspace.
- CollectedTests.CollectedExactly: claims nothing of a name that no class certain to come first can bind where an ancestor is unknown to the module, because what that ancestor binds decides it; what any statement but a plain `def` binds is any value, callable or not; and of a name that one statement both binds and unbinds either may stand at its end.
- Scoring.ScoreWithin: takes measures and weights that are not negative, because a ratio of two signs is no share of a best.
- Scoring.ScoreMonotone: compares candidates that report every metric and part, because a candidate that omits one is scored on another basis.
- Contrasts.MatchedBothWays: does not cover the mode `plain-params`, because its difference is relative to the control and so not symmetric.
- TypedValues.FormsAgreeWithSameValue: does not cover NaNs with a payload, because `typed` tells those apart and `same_value` does not.
- RepositoryPaths.RepositoryPathsStayInside: speaks of text only, because a value that is no string is refused at once.
