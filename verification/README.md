# Verification of ops-supportability

A Dafny model of the four stateful components of the supportability repository, with proofs about every
run of each of them. `dafny verify dfyconfig.toml` checks everything.

**Show-tech configuration** (`show_tech_*.dfy`). `ShowTechSpec` reads the configuration parser as a fold
over YAML events: a keyword state, the finished features, and the feature, sub-feature and table that
are still being filled. `ShowTechRoundTrip` writes a tree down as events and proves that the parser
rebuilds it, and that the parser's range is exactly the well-formed trees (at most one dummy sub-feature
per feature, in first place; no stored value that spells a keyword; no stored `show tech` command).
`ShowTechReading` says what any stream means without a machine: each scalar belongs to the part that the
last keyword before it opened, the stream is rejected exactly when one of them has no place, and
otherwise the tree is read off the parts. `ShowTechLayout` writes the fields of a feature in any order,
leaves out flags that have their default and starts dummies with a flag, a command or a table, as
configuration files do. `ShowTechPattern` says which texts count as a `show tech` command.
`ShowTechNodes`, `ShowTechLists`, `ShowTechParser`, `ShowTechFree` and `ShowTechConfig` are the program
itself on the heap: nodes linked and freed in place, cursors into nested lists. Their invariant says
that all lists are acyclic and disjoint, that every cursor is the tail of its parent's list (except for
a sub-feature that came before any feature), and that live memory is the tree plus the nodes no pointer
leads to any more.

**Show-tech run** (`show_tech_accounting.dfy`, `show_tech_selection.dfy`, `show_tech_run.dfy`,
`show_tech_end_to_end.dfy`, `diag_dump.dfy`). Which commands a `show tech` run executes, flags, counts
and reports. `ShowTechAccounting` is the run as a function of tree, flags and results;
`ShowTechSelection` says which commands a request means, without following a walk; `ShowTechRun`
performs the nested walks on the heap. `ShowTechEndToEnd` joins the accounting with the command runner:
what the report says about what the commands did and where the run stops, over every interleaving.
`DiagDump` is the loop over the daemons of a feature.

**Command runner** (`runner_protocol.dfy`, `runner_causes.dfy`). Main thread, worker and the SIGINT,
SIGTSTP and SIGALRM handlers as a step relation; one step is one access to shared state. Spurious
wake-ups, the timeout and cancellation at any point after the worker allowed it are steps like all
others. The theorems hold for every interleaving. `RunnerCauses` goes back from what the runner reports
to the actions of the interleaving: why a command was cancelled, who wrote each flag last.
`src/cli/diag_dump_vty.c` repeats the same protocol step by step (147-285 and 291-339 there), so they
hold for it, too; the number of executed commands and the result of each one are parameters of the run
modules.

**Remote syslog** (`syslog_*.dfy`). The `logging` commands on a table with optional columns and a list
of references, in transactions that may fail; the same table as a map from hosts to effective settings;
which lines are commands, the printed running configuration, its replay and its removal; and the daemon
that renders the table for rsyslog and decides when to install the file. The order in which the database
library visits rows is arbitrary everywhere.

**Event log** (`event_*.dfy`) and **core dump scan** (`core_scan.dfy`). The numbers and key lists of
event definitions (`EventValues`), the token scanner that fills the event table, the in-place
substitution that builds a message, and their Python counterparts as simple forms; when the substitution
runs for ever (`EventEndless`: replacing in any order leads to the same text after as many steps, so the
loop can be followed in whatever order suits the template); the way from the events file to a logged
message (`EventEndToEnd`); and the scan that reports each new core dump once. `text.dfy` holds decimal
numbers, tokens and substrings; `options.dfy`, `sequences.dfy` and `event_sizes.dfy` hold what several
modules share.

Where the code departs from what its comments or callers intend, the model follows the code, a lemma
gives an input that shows the difference, and another one says exactly when the intention is met:

- `syslog_vty.c:198` skips the port of the row visited last: `SyslogTable.MisledSearch`,
  `SyslogTable.AddExactly`, `SyslogTable.ExactSearch`.
- `eventlog.c:504,540` returns a static buffer that is stale when a key does not occur:
  `EventText.StaleMessage`, `EventText.MessageRightExactly`, `EventText.PlainBufferExactly`.
- `eventlog.c:522` rewrites for ever for some values, among them every value that contains its own
  placeholder: `EventText.EndlessLoop`, `EventEndless.EndlessPair`, `EventEndless.EndlessExactly`.
- `eventlog.c:69,237` compares a list of keys with the keywords after cutting it behind its first key:
  `EventScan.FirstKeyTaken`, `EventScan.EntryExactly`, `EventScan.ScanExactly`.
- `eventlog.c:610-616` and 667 do not recognise an unknown event: `EventLog.UnknownTaken`,
  `EventLog.UnknownOnReached`.
- `eventlog.c:362` admits one category more than the table holds: `EventLog.HundredCategories`,
  `EventLog.CategoryTableFits`.
- `ops_eventlog.py:47` compares categories by substring: `EventLog.ShadowedCategory`,
  `EventLog.SameInits`.
- `ops_supportability.py:191` compares core files by substring: `CoreScan.ShadowedCore`,
  `CoreScan.TestIsMembership`.
- `show_tech_vty.c:588-592` leaves flags of earlier commands set on an interrupt:
  `ShowTechAccounting.InterruptLeavesFlag`, `ShowTechAccounting.InterruptedClear`.
- `show_tech_vty.c:219-228` reports success when the thread cannot set its cancellation state:
  `RunnerProtocol.SetupFailureIsReportedAsSuccess`, `RunnerProtocol.SuccessExactly`.
- `show_tech_vty.c:264-273` waits without looking whether the worker has signalled already, so a command
  that ends at once can end as a timeout: `RunnerCauses.LostWakeUp`, `RunnerCauses.CancelledBecause`,
  `RunnerCauses.PromptSuccess`.
- `show_tech_vty.c:396-413` can arm the alarm twice when two handlers overlap:
  `RunnerProtocol.OverlappingHandlersArmTwice`, `RunnerProtocol.WholeRun`, `RunnerProtocol.OverlapBegins`.
- `showtech.c:738-759,797-818` builds a sub-feature that no feature will ever hold:
  `ShowTechSpec.OrphanLeft`, `ShowTechSpec.OrphanExactly`.

## Model

| member | source | states |
|---|---|---|
| `ShowTechSpec.GetValueType` | src/showtech/showtech.c:79-92 | the search over the keyword strings returns the keyword a scalar spells, and a value otherwise |
| `ShowTechSpec.KeywordRoundTrip` | src/showtech/showtech.c:52-67 | no keyword string shadows another: each spelling is recognised as its own keyword |
| `ShowTechSpec.StepWellFormed` | src/showtech/showtech.c:664-1041 | every event keeps the finished and unfinished parts of the tree well-formed |
| `ShowTechSpec.RunWellFormed` | src/showtech/showtech.c:664-1041 | whatever the events, the tree is well-formed: plain values, no `show tech` command, at most one dummy sub-feature per feature, in first place |
| `ShowTechSpec.RunOrphan` | src/showtech/showtech.c:884-904 | from the first feature or the first error on, it is settled whether there is an orphan sub-feature |
| `ShowTechSpec.OrphanExactly` | src/showtech/showtech.c:738-759 | a parse leaves an orphan exactly when a value of a sub-feature attribute comes before the first feature keyword and before any error |
| `ShowTechSpec.OrphanLeft` | src/showtech/showtech.c:738-759 | a stream of three scalars that leaves an orphan |
| `ShowTechRoundTrip.RunMeaningful` | src/showtech/showtech.c:664-671 | sequence, mapping and document events do not change what is parsed |
| `ShowTechRoundTrip.RunSub` | src/showtech/showtech.c:705-833 | the events of one sub-feature, dummy or not, append exactly that sub-feature to the current feature |
| `ShowTechRoundTrip.RunEmit` | src/showtech/showtech.c:664-1041 | the events of a well-formed tree append exactly that tree to what was parsed before |
| `ShowTechRoundTrip.RoundTrip` | src/showtech/showtech.c:664-1041 | any stream whose meaningful events write down a well-formed tree parses to that tree, without an error and without an orphan |
| `ShowTechRoundTrip.ParserRange` | src/showtech/showtech.c:664-1041 | a tree is the result of some parse if and only if it is well-formed |
| `ShowTechReading.RejectedExactly` | src/showtech/showtech.c:664-1048 | any stream is rejected if and only if some scalar of it has no place: an attribute outside the part it describes, a sub-feature or attribute that needs a feature before any, a `show tech` command, a value without a keyword |
| `ShowTechReading.ParseIsRead` | src/showtech/showtech.c:664-1049 | what any stream parses to is read off its parts: the last name, description and flags and all commands and tables of each feature and sub-feature; nothing if it is rejected |
| `ShowTechLayout.AnyLayout` | src/showtech/showtech.c:664-1049 | a tree whose features and sub-features are written with their fields in any order, default flags left out or given, commands in one list or several, and dummies begun by a flag, a command or a table, parses to that tree |
| `ShowTechLayout.SomeLayout` | src/showtech/showtech.c:664-1041 | every well-formed feature has such a layout |
| `ShowTechLayout.FileExample` | src/showtech/showtech.c:52-67 | two features spelled out as in a configuration file, one with commands directly in it and one with sub-features and tables, parse to what they describe |
| `ShowTechPattern.ShowTechExactly` | src/showtech/showtech.c:70-71 | a command is refused if and only if, at its start or behind a newline, it has blanks, show, at least one blank and tech |
| `ShowTechPattern.ShortIsFine` | src/showtech/showtech.c:325-336 | no command of fewer than nine characters is refused |
| `ShowTechNodes.Memory.Free` | src/showtech/showtech.c:519-590 | freeing takes exactly one allocated node away; freeing twice is ruled out |
| `ShowTechLists.AppendFeature` | src/showtech/showtech.c:103-120 | the feature is linked behind the tail and becomes the head of an empty list; the list stays acyclic |
| `ShowTechLists.AppendSub` | src/showtech/showtech.c:177-194 | the sub-feature becomes the new tail of its feature and all lists of sub-features stay intact |
| `ShowTechLists.AppendCmd` | src/showtech/showtech.c:325-358 | the command becomes the new tail of its sub-feature and all lists of commands stay intact |
| `ShowTechLists.AppendTable` | src/showtech/showtech.c:367-383 | the table becomes the new tail of its sub-feature and all lists of tables stay intact |
| `ShowTechLists.AppendColumn` | src/showtech/showtech.c:416-438 | the column becomes the new tail of its table and all lists of columns stay intact |
| `ShowTechParser.Reject` | src/showtech/showtech.c:1043-1048 | a rejected event leaves an intact tree that is ready to be freed |
| `ShowTechParser.FeatureField` | src/showtech/showtech.c:677-704 | a feature name or description: the pointer tree and cursors follow the fold; without a feature it is an error |
| `ShowTechParser.SubName` | src/showtech/showtech.c:705-720 | a sub-feature name follows the fold; without a sub-feature it is an error |
| `ShowTechParser.SubDesc` | src/showtech/showtech.c:721-735 | a sub-feature description follows the fold; without a sub-feature it is an error |
| `ShowTechParser.EnsureSub` | src/showtech/showtech.c:738-759 | an attribute without a current sub-feature gets a dummy one, under the current feature or as an orphan |
| `ShowTechParser.ShowTechFlag` | src/showtech/showtech.c:736-793 | the two support flags follow the fold, on a dummy sub-feature if need be |
| `ShowTechParser.CliCommand` | src/showtech/showtech.c:794-833 | a command is appended, or rejected if it is a `show tech` command, after the sub-feature was created |
| `ShowTechParser.TableName` | src/showtech/showtech.c:838-850 | a table name follows the fold; without a table it is an error |
| `ShowTechParser.ColumnName` | src/showtech/showtech.c:851-873 | a column name is appended to the current table; without a table it is an error |
| `ShowTechParser.FirstFeature` | src/showtech/showtech.c:884-904 | the first feature becomes the head, and an orphan sub-feature with its commands is counted as lost |
| `ShowTechParser.NextFeature` | src/showtech/showtech.c:884-904 | a later feature is appended, with everything below the previous one finished |
| `ShowTechParser.SubFeatureKeyword` | src/showtech/showtech.c:916-942 | a new sub-feature is appended to the current feature and becomes the current one |
| `ShowTechParser.TableOnDemand` | src/showtech/showtech.c:973-1020 | a table is appended to the current sub-feature, which is created as a dummy if there is none |
| `ShowTechParser.OnKeyword` | src/showtech/showtech.c:884-1030 | every keyword keeps the heap invariant and follows the fold, or is rejected |
| `ShowTechParser.OnValue` | src/showtech/showtech.c:672-883 | every value keeps the heap invariant and follows the fold, or is rejected |
| `ShowTechFree.FreeColumns` | src/showtech/showtech.c:565-574 | frees exactly the columns of a table, each once |
| `ShowTechFree.FreeCommands` | src/showtech/showtech.c:548-557 | frees exactly the commands of a sub-feature, each once |
| `ShowTechFree.FreeTables` | src/showtech/showtech.c:558-579 | frees exactly the tables of a sub-feature with their columns |
| `ShowTechFree.FreeSubs` | src/showtech/showtech.c:537-584 | frees exactly the sub-features of a feature with all below them |
| `ShowTechFree.FreeFeatureData` | src/showtech/showtech.c:519-590 | frees every node the head leads to exactly once; without a feature nothing is freed and an orphan stays behind |
| `ShowTechConfig.OneEvent` | src/showtech/showtech.c:664-1041 | one event on the heap is one step of the fold |
| `ShowTechConfig.ParseEvents` | src/showtech/showtech.c:655-1041 | the event loop computes the fold, keeps the heap invariant at every step and stops at the first error |
| `ShowTechConfig.RunSettled` | src/showtech/showtech.c:1036-1040 | a failed parse holds no tree |
| `ShowTechConfig.AllOrNothing` | src/showtech/showtech.c:1043-1048 | once an event has been rejected, nothing of the tree is returned, whatever follows |
| `ShowTechConfig.ReadTree` | src/showtech/showtech.c:610-1049 | following the pointers from the head reads off exactly the tree, with NULL at every end |
| `ShowTechConfig.ParseTree` | src/showtech/showtech.c:655-1049 | all or nothing: the head leads to the tree of the fold, or to nothing after everything reachable was freed; only an orphan stays allocated |
| `ShowTechConfig.Config.constructor` | src/showtech/showtech.c:51 | no configuration is held at first |
| `ShowTechConfig.Config.FreeShowTechConfig` | src/showtech/showtech.c:598-606 | frees the tree; only nodes lost before stay allocated |
| `ShowTechConfig.Config.ParseShowtechConfig` | src/showtech/showtech.c:610-1049 | the head leads to exactly the parsed tree with all failure flags clear, NULL when it is empty; the memory lost is that of the orphan, if any |
| `ShowTechConfig.Config.GetShowtechConfig` | src/showtech/showtech.c:1059-1074 | parses only while no configuration is held, and otherwise returns the one that is held |
| `RunnerProtocol.StepKeeps` | src/cli/show_tech_vty.c:200-430 | every step of main, worker and handlers keeps the invariant on threads, outcome, cancellation, latch and reports |
| `RunnerProtocol.ReachableInv` | src/cli/show_tech_vty.c:200-430 | the invariant holds in every state that some interleaving reaches |
| `RunnerProtocol.SuccessExactly` | src/cli/show_tech_vty.c:253-344 | in every interleaving, success is reported exactly when the thread was created and never asked to be cancelled, the command ended well or its thread gave up before it, and no interrupt was seen that justified a cancellation; a command that was created and not cancelled has ended |
| `RunnerProtocol.SuccessMeansRanOk` | src/cli/show_tech_vty.c:217-344 | if threads manage to set their cancellation state, success means the command was never cancelled and ran to a successful end |
| `RunnerProtocol.WholeRun` | src/cli/show_tech_vty.c:264-430 | at most one worker alive, each joined before the next is created; the latch rises at most once and at most one command begins after that; the alarm is armed at most once unless two SIGINT handlers overlap |
| `RunnerProtocol.SetupFailureIsReportedAsSuccess` | src/cli/show_tech_vty.c:219-228 | a run in which the command never ran and success is reported |
| `RunnerProtocol.OverlappingHandlersArmTwice` | src/cli/show_tech_vty.c:396-413 | a run with a live worker, hence two threads, in which two SIGINT handlers both arm the alarm |
| `RunnerProtocol.OverlapArmsTwice` | src/cli/show_tech_vty.c:396-413 | whenever two SIGINT handlers are past the test of the latch and the alarm flag is down, some continuation arms the alarm twice |
| `RunnerProtocol.OverlapBegins` | src/cli/show_tech_vty.c:384-413 | that is so from the very step at which two handlers first overlap, so the bound on the alarm fails for overlaps and for nothing else |
| `RunnerCauses.CancelledBecause` | src/cli/show_tech_vty.c:264-318 | in every interleaving each reported command with a thread has a wait of its own, in order; it was cancelled if that wait ended by the timeout, and only if it did or the latch was up while the runner might still cancel |
| `RunnerCauses.UndisturbedSuccess` | src/cli/show_tech_vty.c:264-344 | without a timed-out wait and without an interrupt no command is cancelled, and every command that got a thread and ran well is reported as a success |
| `RunnerCauses.GracePeriod` | src/cli/show_tech_vty.c:384-413 | after an interrupt a running command is left to finish: it is cancelled only if its time ends, SIGTSTP arrives, the alarm expires, or a handler runs just while the runner looks at the flags |
| `RunnerCauses.LastWriters` | src/cli/show_tech_vty.c:200-430 | in every interleaving latch, alarm flag, failure flag and timer hold what the last action that writes them has written |
| `RunnerCauses.SkippingEnds` | src/cli/show_tech_vty.c:560-640 | once the remaining commands are to be skipped, no further one begins |
| `RunnerCauses.PromptSuccess` | src/cli/show_tech_vty.c:253-344 | a run in which the signal of the worker wakes the runner and success is reported |
| `RunnerCauses.LostWakeUp` | src/cli/show_tech_vty.c:264-273 | a run in which a command has ended well and signalled before the runner waits, which then waits for the timeout |
| `ShowTechAccounting.SelectInRange` | src/cli/show_tech_vty.c:641-805 | the commands a request selects are a stretch of the commands in tree order |
| `ShowTechSelection.SelectedSub` | src/cli/show_tech_vty.c:729-795 | a request for a sub-feature selects nothing if no feature of that name has a sub-feature of that name other than a dummy; otherwise exactly the commands of the first such pair, behind all commands before it |
| `ShowTechSelection.SelectedFeature` | src/cli/show_tech_vty.c:619-728 | a request for a feature selects exactly the commands of the first feature of that name, or nothing if there is none |
| `ShowTechSelection.SelectedAll` | src/cli/show_tech_vty.c:536-617 | a request for everything selects all commands |
| `ShowTechSelection.NothingRun` | src/cli/show_tech_vty.c:509-820 | the configuration is reported as missing if and only if it is empty, and the request as unsupported if and only if nothing in it bears the names |
| `ShowTechAccounting.VisitParts` | src/cli/show_tech_vty.c:560-596 | running a stretch of commands is running its first part and then, unless stopped, the rest |
| `ShowTechAccounting.FlagMeaning` | src/cli/show_tech_vty.c:575-593 | after an uninterrupted stretch a command is flagged exactly if it was before or has failed now |
| `ShowTechAccounting.FlagsAreFailures` | src/cli/show_tech_vty.c:575-593 | conservation: flags after plus renewed flags equal flags before plus failures counted |
| `ShowTechAccounting.RenewedExactly` | src/cli/show_tech_vty.c:575-593 | all older flags are renewed if and only if every flagged command is run and fails again |
| `ShowTechAccounting.ReportSize` | src/cli/show_tech_vty.c:351-378 | the report has one entry for each flag |
| `ShowTechAccounting.ReportEntry` | src/cli/show_tech_vty.c:351-378 | with k flagged commands before it, a flagged command is the k-th entry and bears the number k + 1 |
| `ShowTechAccounting.ReportMatchesCount` | src/cli/show_tech_vty.c:830-851 | the report of an uninterrupted run has as many entries as failures were counted if and only if every command flagged before is run and fails again |
| `ShowTechAccounting.ReportEntries` | src/cli/show_tech_vty.c:351-378 | the report lists exactly the commands flagged before or failed in this run |
| `ShowTechAccounting.ClearRun` | src/cli/show_tech_vty.c:535-860 | from clear flags, an uninterrupted run ends with clear flags and counts exactly the commands it reports |
| `ShowTechAccounting.ClearSeries` | src/cli/show_tech_vty.c:535-860 | the same for every run of any series of uninterrupted runs |
| `ShowTechAccounting.InterruptedFlags` | src/cli/show_tech_vty.c:588-592 | after an interrupt, command by command: the one right before the interrupt is not flagged, the other executed ones are if they were before or have failed now, all others are as before |
| `ShowTechAccounting.InterruptedClear` | src/cli/show_tech_vty.c:588-592 | an interrupted run leaves all flags clear if and only if, apart from the command right before the interrupt, none was flagged and no executed one failed |
| `ShowTechAccounting.InterruptLeavesFlag` | src/cli/show_tech_vty.c:588-592 | three runs after which a report lists a command that its run did not count |
| `ShowTechAccounting.LatchBefore` | src/cli/show_tech_vty.c:536-728 | a run over everything does not depend on the latch before a command; the run of a feature that sees it up before its first command runs nothing and leaves all flags |
| `ShowTechEndToEnd.SilenceMeansRanOk` | src/cli/show_tech_vty.c:253-378 | in every interleaving of runner and signal handlers without a set-up failure, a selected command that the report of an uninterrupted run does not show was created, never cancelled, and ran to a successful end |
| `ShowTechEndToEnd.ShownMeansNotOk` | src/cli/show_tech_vty.c:253-378 | from clear flags, entry k of the report names a selected command that was not created, was cancelled, failed, or saw an interrupt that entitled the runner to cancel it |
| `ShowTechEndToEnd.VisitIsRun` | src/cli/show_tech_vty.c:560-596 | the accounting executes exactly the commands that the runner was given in the interleaving, and stops exactly if the loop of the interleaving was stopped |
| `ShowTechEndToEnd.StoppedExactly` | src/cli/show_tech_vty.c:535-640 | a run is interrupted if and only if the loop of the interleaving was stopped by what it read in the latch; without a handler that raised the latch and without a request to skip the rest it is not |
| `ShowTechEndToEnd.AllWell` | src/cli/show_tech_vty.c:253-860 | in every interleaving without a timed-out wait, an interrupt or a request to skip the rest, in which all selected commands got a thread and ran well, the user sees success |
| `ShowTechEndToEnd.DumpCounts` | src/cli/diag_dump_vty.c:696-768 | a dump that is not interrupted reports exactly as many failed daemons as requests went wrong in the interleaving |
| `ShowTechEndToEnd.CapturedMeansRanOk` | src/cli/diag_dump_vty.c:696-768 | a dump that succeeds has had an answer from every enabled daemon, unless threads fail to set up |
| `ShowTechEndToEnd.DumpStoppedExactly` | src/cli/diag_dump_vty.c:705-735 | a dump is interrupted if and only if the loop of the interleaving was stopped by what it read in the latch; without a handler that raised the latch and without a request to skip the rest it is not |
| `DiagDump.EnabledExactly` | src/cli/diag_dump_vty.c:699-705 | the number of daemons that are asked is the number of enabled ones |
| `ShowTechRun.Mark` | src/cli/show_tech_vty.c:575-592 | a failed command is flagged; an interrupt right after it takes the flag back |
| `ShowTechRun.RunCommands` | src/cli/show_tech_vty.c:567-596 | the walk over the commands of a sub-feature changes flags and counters as specified |
| `ShowTechRun.RunSubs` | src/cli/show_tech_vty.c:547-607 | the walk over all sub-features of a feature, in order, dummies included |
| `ShowTechRun.RunAll` | src/cli/show_tech_vty.c:536-617 | the walk over all features |
| `ShowTechRun.RunSubFeature` | src/cli/show_tech_vty.c:729-795 | the first sub-feature of the name that is not a dummy is run, and nothing else |
| `ShowTechRun.RunFeature` | src/cli/show_tech_vty.c:619-805 | the first feature of the name is run, or its first matching sub-feature; the search goes on in later features of the same name |
| `ShowTechRun.PrintFailedCommands` | src/cli/show_tech_vty.c:351-378 | prints the numbered list of the flagged commands of the whole tree and clears every flag |
| `ShowTechRun.CliShowTech` | src/cli/show_tech_vty.c:517-869 | flags and outcome of one command are those of the specification |
| `ShowTechRun.ShowTechOn` | src/cli/show_tech_vty.c:436-898 | the same on the held configuration, which otherwise stays as it was |
| `DiagDump.DumpFeature` | src/cli/diag_dump_vty.c:696-768 | each enabled daemon is asked in turn up to the first interrupt; uninterrupted, success is reported exactly when every enabled daemon answered, and the failures reported are the daemons that did not |
| `SyslogTable.Remotes.GetConfig` | src/cli/syslog_vty.c:96-257 | the comparisons, one by one, find the first row that agrees in all fields that count, defaults filled in, with the port of the last row skipped |
| `SyslogTable.Remotes.DeleteConfig` | src/cli/syslog_vty.c:263-319 | the matching row and its references are gone, and nothing else; without a match nothing changes |
| `SyslogTable.Remotes.Config` | src/cli/syslog_vty.c:327-512 | the table and status after one command, with every refusal and failure |
| `SyslogTable.Remotes.ConfigNone` | src/cli/syslog_vty.c:846-928 | the question is repeated until y or n is pressed; y removes everything in one transaction, or nothing if that fails; n changes nothing |
| `SyslogTable.WithoutIs` | src/cli/syslog_vty.c:292-302 | the rebuilt reference list keeps exactly the other references |
| `SyslogTable.ExecKeeps` | src/cli/syslog_vty.c:285-497 | every command keeps the invariant, whatever the database does |
| `SyslogTable.RunKeeps` | src/cli/syslog_vty.c:285-497 | after every sequence of commands: at most four rows, distinct valid hosts, references a duplicate-free listing of exactly the rows, ports in range and only with a transport |
| `SyslogTable.RefusedLeaveNoTrace` | src/cli/syslog_vty.c:347-507 | without the commands that do not succeed, a run of commands is still a run in which each succeeds, and leads to the same rows and references |
| `SyslogTable.AbsSize` | src/cli/syslog_vty.c:435-442 | the map of hosts has one entry for each reference |
| `SyslogTable.ExactMatchMeaning` | src/cli/syslog_vty.c:110-255 | the exact comparison is equality of effective transport, port and severity, or a skipped port |
| `SyslogTable.ExactSearch` | src/cli/syslog_vty.c:79-95 | the exact search accepts if and only if the host has exactly the wanted settings or the port of the last row was skipped |
| `SyslogTable.SearchMeaning` | src/cli/syslog_vty.c:96-257 | a search accepts if and only if the row for the host agrees in all that counts or the port of the last row was skipped |
| `SyslogTable.AddRefines` | src/cli/syslog_vty.c:386-497 | `logging` sets the entry of its host and no other, even at capacity if the host is there; a fifth host is refused; a misled search changes nothing |
| `SyslogTable.AddExactly` | src/cli/syslog_vty.c:198-202 | `logging` sets the entry if and only if the port of the last row was not skipped |
| `SyslogTable.RemoveRefines` | src/cli/syslog_vty.c:263-319 | `no logging` removes the entry of its host, and no other, exactly when the given fields match or the port was skipped |
| `SyslogTable.MisledSearch` | src/cli/syslog_vty.c:198-202 | a port that cannot be changed, and a removal that ignores a wrong port |
| `SyslogTable.AnswerIs` | src/cli/syslog_vty.c:867-917 | the answer to the question of `no logging` is the first y or n, whatever is pressed before |
| `SyslogTable.ChangesOnlyWhenWorks` | src/cli/syslog_vty.c:327-512 | a command changes the table only if transaction, System row, new row, commit and host are all in order, and each refusal says which was not |
| `SyslogText.TypedIsFromCommandLine` | src/cli/syslog_vty.c:514-843 | whatever is typed, the command meets the assumptions of the invariant |
| `SyslogText.PrintRunningConfig` | src/cli/vtysh_ovsdb_syslog_context.c:42-89 | one line per row, in order: host, then transport, port and severity where stored |
| `SyslogText.LineIsJoin` | src/cli/vtysh_ovsdb_syslog_context.c:53-87 | the printed pieces are the tokens of a command joined by single spaces |
| `SyslogText.TypedAgain` | src/cli/vtysh_ovsdb_syslog_context.c:53-87 | typing a printed line gives the same row back if and only if the row has no port without a transport |
| `SyslogText.Replay` | src/cli/vtysh_ovsdb_syslog_context.c:53-87 | printing any reachable table in any order and typing the lines on an empty table rebuilds the same set of rows |
| `SyslogForms.AcceptedExactly` | src/cli/syslog_vty.c:514-860 | a line is the command that sets or removes a host with some settings if and only if its words spell that out, with a port only after a transport, in decimal and in range; the question is asked exactly for the two words alone |
| `SyslogForms.NoTyped` | src/cli/syslog_vty.c:667-843 | a printed line with "no" before it is the command to remove that row |
| `SyslogForms.NoPrintedLine` | src/cli/syslog_vty.c:263-319 | after any sequence of commands, typing "no" and a printed line removes the entry of its host and no other |
| `SyslogForms.RemoveAllRefines` | src/cli/syslog_vty.c:846-928 | for any table, `no logging` with the answer y leaves no host, no reference and no printed line when nothing fails; with the answer n, with y when something fails, and without an answer the table stays as it is |
| `SyslogDaemon.SameLine` | src/python/ops_supportability.py:318-378 | two targets are rendered alike if and only if severity, port and target are the same; a target is a host up to brackets over one transport, or a udp host that begins with the second at sign of the other |
| `SyslogDaemon.PlainTargets` | src/python/ops_supportability.py:318-378 | for hosts that begin with neither an at sign nor a bracket this means the same host and transport |
| `SyslogDaemon.SharedLine` | src/python/ops_supportability.py:318-378 | two different hosts with one line |
| `SyslogDaemon.ExactMatchIsSameLine` | src/python/ops_supportability.py:328-378 | the exact search accepts a row if and only if it is for the same host and the daemon renders the same line for both, or the port of the last row was skipped; for plain hosts the line alone decides |
| `SyslogDaemon.Daemon.RenderRow` | src/python/ops_supportability.py:328-378 | the line from the template for transport and kind of address, defaults filled in; none for other transports |
| `SyslogDaemon.Daemon.Reconfigure` | src/python/ops_supportability.py:310-400 | the installed file is the rendering of the rows, and rsyslog is restarted exactly if it differed |
| `SyslogDaemon.Daemon.Run` | src/python/ops_supportability.py:404-413 | reconfigures exactly when the change counter moved, and catches up with it |
| `SyslogDaemon.Daemon.MainLoop` | src/python/ops_supportability.py:455-475 | over any run: one restart for each rendered content that differs from the one installed before, and one wait for each round without an exit |
| `SyslogDaemon.CaughtUp` | src/python/ops_supportability.py:455-475 | whenever the daemon blocks after at least one change, the installed file is the rendering of the current rows |
| `SyslogDaemon.RepeatIsNoOp` | src/python/ops_supportability.py:384-398 | reconfiguring again for the same rows restarts nothing |
| `SyslogDaemon.RenderedDefaults` | src/python/ops_supportability.py:318-345 | a host without settings is rendered as info over udp to port 514 |
| `SyslogDaemon.RenderedOverTcp` | src/python/ops_supportability.py:361-378 | a host with the transport tcp alone is rendered with two at signs and port 1470 |
| `SyslogDaemon.RenderedInBrackets` | src/python/ops_supportability.py:361-372 | an IPv6 address with transport, port and severity is rendered in brackets |
| `SyslogDaemon.RenderedInOrder` | src/python/ops_supportability.py:328-378 | the lines stand in the order of the rows |
| `SyslogDaemon.BlocksInEachRound` | src/python/ops_supportability.py:455-475 | the daemon blocks once in every round up to the first that exits |
| `SyslogDaemon.KnowsTheLast` | src/python/ops_supportability.py:404-475 | when the daemon blocks, its rows are those received last and the installed file is their rendering |
| `SyslogDaemon.KeepsWithout` | src/python/ops_supportability.py:404-475 | until something is received, rows and installed file stay as they were |
| `EventText.RewriteProgress` | src/eventlog/eventlog.c:521-538 | a value without an opening brace leaves fewer opening braces with each rewriting |
| `EventEndless.EndlessExactly` | src/eventlog/eventlog.c:521-538 | for a flat template with any number of placeholders and any value: the loop runs for ever if and only if a placeholder of the key occurs and either the value contains it, or the value begins with the end and ends with the beginning of a placeholder, two placeholders stand in the template with exactly the text between them that joins these ends, and the rest of the value makes a placeholder with either end |
| `EventEndless.SubstitutedExactly` | src/eventlog/eventlog.c:521-538 | the loop ends and substitutes each placeholder if and only if none occurs, or the value does not contain the placeholder and no two placeholders have the joining text between them |
| `EventEndless.EndlessPair` | src/eventlog/eventlog.c:521-538 | two placeholders side by side and a value that does not contain them, for which the loop runs for ever |
| `EventEndless.AnyOrder` | src/eventlog/eventlog.c:521-538 | if some order of replacing placeholders ends, every order ends, with the same text and after as many replacements |
| `EventText.EndlessLoop` | src/eventlog/eventlog.c:521-538 | a text and a value for which the loop never ends |
| `EventText.PlainLoop` | src/eventlog/eventlog.c:521-538 | for a value without an opening brace the loop ends with the result of the recursion on the number of braces |
| `EventText.LoopInPieces` | src/eventlog/eventlog.c:521-538 | the rewriting loop substitutes every placeholder of the key in a flat template |
| `EventText.ReplaceInPieces` | src/python/ops_eventlog.py:84-90 | the one-pass replacement substitutes every placeholder of the key in a flat template |
| `EventText.LoopIsReplace` | src/eventlog/eventlog.c:501-541 | for a flat template and a brace-free value, repeated rewriting of the first occurrence equals the one-pass replacement |
| `EventText.NestedDiffers` | src/eventlog/eventlog.c:521-538 | with nested braces the two differ |
| `EventText.SequentialIsSimultaneous` | src/eventlog/eventlog.c:684-713 | substituting one pair after another equals substituting all at once |
| `EventText.OrderIndependent` | src/eventlog/eventlog.c:684-713 | with distinct keys the order of the arguments does not matter |
| `EventText.KeyValueString` | src/eventlog/eventlog.c:403-463 | a key=value string has at most 126 characters, so the comma added later fits its buffer |
| `EventText.KeyValueRoundTrip` | src/eventlog/eventlog.c:421-456 | a string is built exactly when key and value are not empty and have at most 125 characters together; splitting it gives the pair back |
| `EventText.ListIsPrefix` | src/eventlog/eventlog.c:704-710 | the accumulated list has at most 255 characters and is a prefix of the full list, cut only when the buffer is full |
| `EventText.Substituter.ReplaceStr` | src/eventlog/eventlog.c:501-541 | for any value with which the loop ends within the buffers, the text is rewritten until the placeholder does not occur; the result buffer is written only if it did occur, and never past its end |
| `EventText.Substituter.PopulateStr` | src/eventlog/eventlog.c:548-589 | the text becomes the result buffer; with all refusals and what they leave in the buffer |
| `EventText.Substituter.Compose` | src/eventlog/eventlog.c:655-713 | text, buffer and list for the arguments up to the number of keys or the first NULL; an argument that is too long leaves the pair before it in place, and a description that is too long leaves the text empty |
| `EventText.PopulateExactly` | src/eventlog/eventlog.c:548-589 | one pair is substituted if and only if the rewritten text fits and its key occurs in a text that fits, or the result buffer, empty or not, happens to hold the text |
| `EventText.MessageIsSubstitution` | src/eventlog/eventlog.c:684-713 | if the first key occurs in a flat template, the message is the template with all pairs substituted at once, whether or not the later keys occur |
| `EventText.MessageExactly` | src/eventlog/eventlog.c:684-713 | the exact message for any flat template and buffer: if the first key occurs the template is filled in, if not the old buffer is; a buffer is overrun if some text on the way is too long before any is empty, and there is no message if one is empty |
| `EventText.MessageRightExactly` | src/eventlog/eventlog.c:684-713 | so the message is the template with all pairs substituted if and only if the first key occurs and all texts fit, or the old buffer fits and happens to be filled in to the same text |
| `EventText.PlainBufferExactly` | src/eventlog/eventlog.c:504-541 | for a buffer without braces: if and only if the first key occurs and all texts fit, or the buffer is that message already |
| `EventText.MessageOrder` | src/eventlog/eventlog.c:684-713 | with distinct keys the order of the arguments does not matter for the composed message |
| `EventText.ComposedIsMessage` | src/eventlog/eventlog.c:675-713 | pairs that fit are used as they are |
| `EventText.ReplaceAllInPieces` | src/python/ops_eventlog.py:84-90 | the Python version substitutes all pairs at once |
| `EventText.SameMessage` | src/python/ops_eventlog.py:95-120 | both versions compose the same message |
| `EventText.StaleMessage` | src/eventlog/eventlog.c:504-541 | without the only key in the template the message is the one before; and before the first message, when the buffer is empty, there is none |
| `EventScan.ScanAppend` | src/eventlog/eventlog.c:190-280 | scanning a stream is scanning its first part and then the rest |
| `EventScan.ValueField` | src/eventlog/eventlog.c:236-273 | a field of an event is stored if the event is being filled, and stays pending if not; the first of its keys is then compared with the keywords |
| `EventScan.FillTail` | src/eventlog/eventlog.c:55-125 | an event of the category is filled in, whatever its first key is taken for, and the delimiter moves behind it |
| `EventScan.SkipTail` | src/eventlog/eventlog.c:190-280 | an event of another category leaves the table alone |
| `EventScan.ScanIsFilter` | src/eventlog/eventlog.c:190-280 | for a stream in the documented order whose values are no keywords, the scanner appends exactly the entries it makes of the definitions of the category, in file order, with the delimiter right behind them, and succeeds exactly if there is one |
| `EventScan.EntryExactly` | src/eventlog/eventlog.c:62-82 | the entry is what the definition describes if and only if the first key is not event_ID unless the identifier is 0, not keys unless it is the only key, and not event_description_template unless the template is the word that follows |
| `EventScan.ScanExactly` | src/eventlog/eventlog.c:62-273 | so the table holds what the definitions of the category describe if and only if that holds for each of them |
| `EventScan.FirstKeyTaken` | src/eventlog/eventlog.c:62-273 | a documented definition with identifier 1001 whose event gets the identifier 0 |
| `EventScan.ScanBehind` | src/eventlog/eventlog.c:190-280 | a scan leaves the descriptions behind the filled prefix as the memory held them |
| `EventValues.NumberRead` | src/eventlog/eventlog.c:95-98 | the decimal form of a number is read back, with or without a sign, whatever follows that is not a digit |
| `EventValues.BlanksSkipped` | src/eventlog/eventlog.c:95-98 | blanks before a number are skipped |
| `EventValues.CountExactly` | src/eventlog/eventlog.c:62-76 | the number of keys of any scalar is the number of places, at its start or behind a comma, where something other than a comma stands |
| `EventValues.KeysOfJoin` | src/eventlog/eventlog.c:62-76 | keys joined by commas are all counted |
| `EventValues.TwoKeys` | src/eventlog/eventlog.c:62-76 | the two keys of an event about fans |
| `EventValues.FirstKeyIs` | src/eventlog/eventlog.c:62-76 | counting leaves of a scalar its leading commas and its first key |
| `EventEndToEnd.GivenExactly` | src/eventlog/eventlog.c:684-696 | what is read of the arguments are the first ones, as many as there are keys, none of them NULL; fewer only if they end or a NULL follows |
| `EventEndToEnd.GivenAll` | src/eventlog/eventlog.c:684-696 | as many arguments as keys are all read, and nothing behind them |
| `EventEndToEnd.GivenUpToNull` | src/eventlog/eventlog.c:684-696 | a NULL ends the arguments |
| `EventEndToEnd.FieldsStored` | src/eventlog/eventlog.c:62-125 | unless its first key does harm, an event is stored with the fields of its definition and with as many keys as that lists |
| `EventEndToEnd.EventsFrom` | src/eventlog/eventlog.c:190-280 | the events of the table are the entries of the definitions of the initialised categories, and of no others |
| `EventEndToEnd.EventFound` | src/eventlog/eventlog.c:352-617 | after initialising distinct categories, searching for an event of one of them finds the entry of its definition |
| `EventEndToEnd.LoggedInFull` | src/eventlog/eventlog.c:352-713 | from the file to the message: logging an event of an initialised category with one pair for each of its keys gives its template with all pairs substituted, if its first key occurs and all texts fit |
| `EventLog.DelimiterFrom` | src/eventlog/eventlog.c:132-148 | the search for the delimiter finds the end of the filled prefix |
| `EventLog.EventTable.AssignParsedValues` | src/eventlog/eventlog.c:62-125 | the table, the flags and what is left of the scalar after one value are those of the scanner |
| `EventLog.EventTable.FindLastIndex` | src/eventlog/eventlog.c:132-148 | the first entry with the delimiter, or -1 |
| `EventLog.EventTable.OneKey` | src/eventlog/eventlog.c:209-275 | the table and the flags after one scalar are those of the scanner |
| `EventLog.EventTable.ParseYaml` | src/eventlog/eventlog.c:157-285 | the table after a stream is that of the scanner, started at the delimiter |
| `EventLog.EventTable.EventCategorySearch` | src/eventlog/eventlog.c:326-344 | tells whether the category is among the initialised ones |
| `EventLog.EventTable.EventLogInit` | src/eventlog/eventlog.c:352-396 | state and result of one initialisation, with its guards and the table created on the first one |
| `EventLog.EventsCount` | src/eventlog/eventlog.c:352-396 | distinct categories share no events, so the events of all fit a file smaller than the table |
| `EventLog.InitKeeps` | src/eventlog/eventlog.c:352-396 | a known category changes nothing and returns -1; any other appends its events, which always fit, and becomes known if it has any |
| `EventLog.InitsKeep` | src/eventlog/eventlog.c:352-396 | after any sequence of initialisations the table holds exactly the events of the initialised categories, with the delimiter right behind them |
| `EventLog.InitsAll` | src/eventlog/eventlog.c:352-396 | initialising distinct categories that have events makes them all known, in order |
| `EventLog.CategoryTableFits` | src/eventlog/eventlog.c:362-365 | the category table overflows if and only if 99 categories are known and another one with events is initialised |
| `EventLog.HundredCategories` | src/eventlog/eventlog.c:362-365 | a file and one hundred initialisations after which one hundred categories are known |
| `EventLog.PyEventLog.EventLogInit` | src/python/ops_eventlog.py:41-79 | the Python version appends the definitions of a category unless its name is part of a known one |
| `EventLog.SameInit` | src/python/ops_eventlog.py:45-67 | one initialisation keeps the two versions the same if and only if the substring test does not mistake a new category with events for a known one and no first key of its definitions does harm |
| `EventLog.SameInits` | src/python/ops_eventlog.py:45-67 | the two versions stay the same over a whole sequence of initialisations if and only if that holds at every step |
| `EventLog.ShadowedCategory` | src/python/ops_eventlog.py:45-49 | after VLANINTERFACE, VLAN can no longer be initialised |
| `EventLog.EventTable.EventSearch` | src/eventlog/eventlog.c:596-617 | -1 without a table; otherwise stops at the name, at a description that is the delimiter, or at the end |
| `EventLog.KnownEvent` | src/eventlog/eventlog.c:596-617 | an initialised event is found at its first position and not taken for an unknown one |
| `EventLog.UnknownOnReached` | src/eventlog/eventlog.c:610-676 | on a table that initialisations have filled, an unknown name is recognised if and only if the search can stop at the last entry and nowhere before: no stored description is the delimiter, and the memory behind the events holds it in the last description only; otherwise it is taken for an entry before, or for the one behind the table |
| `EventLog.UnknownTaken` | src/eventlog/eventlog.c:596-676 | a file with one event, after which an unknown name is taken for the entry behind a zeroed table |
| `CoreScan.InPrint` | src/python/ops_supportability.py:188-193 | the textual test on the printed list holds if and only if the path is part of a listed path |
| `CoreScan.Watcher.ProcessCoredumps` | src/python/ops_supportability.py:173-203 | reports the present files not found in the record, in order, and rewrites the record exactly if there was one |
| `CoreScan.AllRecorded` | src/python/ops_supportability.py:184-203 | after a scan every present file counts as recorded |
| `CoreScan.ReportedOnce` | src/python/ops_supportability.py:173-203 | over any sequence of scans a file that stays present is reported exactly once if it was not recorded at first, and never if it was |
| `CoreScan.ReportedExactly` | src/python/ops_supportability.py:173-203 | after any sequence of scans, from the record an earlier daemon left, a present file is reported if and only if its path is not part of a path the last productive scan listed |
| `CoreScan.TestIsMembership` | src/python/ops_supportability.py:190-193 | the textual test decides membership if and only if the path is listed or part of no listed path |
| `CoreScan.ShadowedFile` | src/python/ops_supportability.py:190-193 | a new file whose path is a proper part of a recorded one is not reported |
| `CoreScan.ShadowedCore` | src/python/ops_supportability.py:173-203 | two file names of the core folder, one compressed, that show it |

## Left out

- Deadlock freedom, mutex ownership after asynchronous cancellation and the restoration of `vty->type`: the code has windows in which they fail.
- YAML lexing, regular expression engines, files, the journal, OVSDB wire traffic, sockets, inotify, unixctl and terminal settings: the models take events, scalars, rows, keys and faults as input. The `show tech` pattern is written out as a predicate.
- Allocation failure, `sigaction` and `pthread_join` failure and `exit` paths: every one of them ends the operation with a log message.
- The text printed around commands and reports, dates and run times: they add only formatting.
- Validation of host names and addresses: an arbitrary predicate that every stored host satisfies. Blanks are excluded because commands are typed as tokens.
- The placeholder buffer of `eventlog.c:506`, which is one byte short: every call that replaces anything writes past it. The buffers of 480 and 128 bytes are modelled: a text that outgrows them ends as `Undefined`.
- Transports other than `udp` and `tcp` in the row tables of the commands: no command form produces them. The daemon's treatment of them is modelled.
- `filecmp` as a comparison of file signatures: the model compares contents.
- Escape sequences of printed path lists: core file paths are printable ASCII without quotes and backslashes.
- `src/featuremapping/feature_mapping.c` and the thin command wrappers (`core_dump.c`, `show_core_dump_vty.c`, `copy_core_dump_vty.c`, `show_vlog_vty.c`, `show_events_vty.c`, `ospf_debug_vty.c`, `supportability_vty.c`): they would add only easy members.
- EventText.Substituter.ReplaceStr: asks that the loop ends and stays within the buffers, because with some values it does not.
- EventText.Substituter.PopulateStr: asks the same and that the string is not made of equals signs only, because the code then reads through a null pointer.
- EventText.Substituter.Compose: asks the same of every argument, and for as many arguments as keys or a NULL among them.
- EventEndless.EndlessExactly: speaks of templates without nested or unpaired braces, as the event definitions have them; for other templates `EventText.LoopEnds` covers values that lack one kind of brace or contain the placeholder.
- EventLog.EventTable.ParseYaml: asks that the scan stays within the table, because the code writes past its end otherwise; `EventLog.InitKeeps` shows that a file with fewer events than table entries never gets there.
- EventLog.EventTable.EventLogInit: asks the same for the stream of its category.
- RunnerProtocol.WholeRun: a signal handler is one thread of steps of its own; that it borrows the stack of main or worker, and may block on a mutex its thread holds, is not modelled.
- ShowTechRun.CliShowTech: the interrupt latch is sampled through an oracle for each test the code makes; `skip_further_execution` is part of the same oracle, although the sub-feature walk does not test it.
