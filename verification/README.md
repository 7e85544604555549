# Verified models of the planning and installation engine

This project models the parts of the tool whose correctness spans several functions, and proves the properties
they are written for. Every module is named after the component it models; `dafny verify dfyconfig.toml` checks
them all.

* **The plan document** (`Text`, `Cells`, `Rows`, `Render`, `Scan`, `ScanMeaning`, `ScanEdits`, `Section`). A plan is
  Markdown text whose tables are read by two scanners, one that answers the cells of a row and one that answers
  their offsets, and by one walk over lines that has to see fences, subheadings and cut tables alike for every
  reader. The walk is a class with the source's fields and is proved equal to a fold, and the fold equal to a
  description by positions.
* **Its writers** (`Record`, `RecordLaws`, `Recording`, `Pins`, `Findings`, `FindingLaws`, `Acceptance`, `Gaps`, `GapsLaws`, `GapsVerdict`, `Upgrade`,
  `UpgradeScan`, `UpgradeLaws`, `UpgradeCount`). Each writer is the source's loop, proved to compute a function from
  the text it reads to the text it writes; the laws are about those functions: what reads back, what stays, in which
  order, what a run is then counted, and when it is told that it owes nothing.
* **The write protocol** (`Writers`, `Protocol`, `ProtocolLive`). Any number of writers, one lock, a bounded wait whose helper may win
  the lock too late, a comparison with what was read before, a rename, and crashes anywhere, as a transition system.
  A run is any sequence of steps of any processes. Nothing bad happens in any of them, and the work gets done: a writer
  alone writes what it should, a free lock is taken, and every run can be brought to its end.
* **Evidence** (`Shell`, `ShellGrammar`, `ShellJoins`, `ShellReading`, `ShellClean`, `Numbers`, `Mutations`, `MutationCells`,
  `MutationLaws`, `Ledgers`, `LedgerCommands`, `Evidence`, `Admission`, `RecordCheck`). The marker walk is compared with a grammar of
  quoting and line continuation that has one reading for a text; it is exact on commands of one line, which is what a
  ledger holds, and which substitutions it misses in others is said exactly. The row decision and the mutation survey
  are the source's, and together with the writers they give the end-to-end law that what a run records the next run
  admits.
* **Installation** (`Sorting`, `Settings`, `SettingsShape`, `SyncPlan`, `SyncPlanLaws`, `SyncClaims`, `SyncTold`, `SyncRun`,
  `SyncSafety`, `SyncLaws`, `SyncFixed`, `SyncSettings`, `SyncUndo`, `UninstallPlan`, `SyncMachine`). The three-way plan, the Stop hook merged into settings.json,
  runs that stop after any part of any action, and histories of edits, syncs and uninstalls.
* **Four compact cores** (`Keys`, `KeysLaws`, `KeysExact`, `KeysArrive`; `Pool`; `Corpus`; `Pagination`, `Csv`).

Assumptions, stated as preconditions where they matter: ledger ids are unique and the pin's columns are columns of
their own (`Pins.CanPin`); the columns of the Findings table are distinct and the Id column is first
(`FindingLaws.ProperHeader`); the lines an upgrade touches end in a pipe of their own and its tables are rectangular
(`UpgradeLaws.Rectangular`); hosts are claimed disjoint paths (`SyncSafety.DisjointHosts`), none of them a settings file
(`SyncFixed.SettingsApart`), and have distinct names; the hash is injective, and what the settings printer writes its reader
reads back (`SyncFixed.Prints`). Text is valid UTF-8, one character a code point. The fold that compares names with
headings and columns is exact where one side is ASCII, as every name the program asks for is.

Where documentation and code differ the code is followed, and four differences are results:

* A recording that loses the directory sync after its rename reports failure although its write stands; the model has
  that step (`Protocol.Do`, `Finish`).
* The installer is said to touch nothing it does not own and to keep what it replaces. It writes settings.json over
  without a snapshot, so that file is outside the laws about lost content; `SyncSettings.SyncRewritesIff` and
  `UninstallRewritesIff` say exactly when it is written, and `SettingsAreLost` gives an input.
* An uninstall takes the installation back off the machine. Of several hosts with a wired hook it unwires the settings
  of the last one only, and of the one host it leaves a file that was not there (`SyncUndo.UninstallUndoes`,
  `SettingsRestoredIff`).
* A backslash is said to escape the next byte. Before the end of a line it joins two lines, and a double-quoted
  substitution with such a join between its two characters passes (`ShellClean.ContinuationHides`).

## Model

| member | source | states |
|---|---|---|
| Cells.Split | internal/plan/plan.go:1275-1301 | the one-pass reader computes the cells: cut at unescaped pipes, unescaped, trimmed |
| Cells.CellSpan | internal/plan/plan.go:694-728 | the second scanner answers exactly the byte span of the raw cell the first one reads, and none exactly when there is no such cell |
| Cells.CutConcat | internal/plan/plan.go:1275-1301 | cutting a text at a pipe that no backslash escapes is cutting both sides |
| Cells.CutJoin | internal/plan/plan.go:1275-1301 | raw cells that are closed join to a text that cuts back into them |
| Rows.RecordReads | internal/plan/plan.go:638-689 | a row with one cell exchanged reads back with that cell and no other changed |
| Rows.RecordTwice | internal/plan/plan.go:638-689 | a later value wins over an earlier one, byte for byte |
| Rows.RecordSwap | internal/plan/plan.go:638-689 | two cells of a row are exchanged in any order |
| Rows.RecordSame | internal/plan/plan.go:638-689 | writing the value a cell holds leaves the line as it is |
| Rows.AppendTableCell | internal/plan/upgrade.go:99-111 | the loop that skips trailing blanks appends the cell before them |
| Rows.AppendReads | internal/plan/upgrade.go:99-111 | a row that ends in a pipe of its own reads back with one more cell at the end |
| Render.RowExact | internal/plan/addfinding.go:243-290 | the cell count is an exact test of a rendered row: it matches if and only if no value holds a pipe behind an odd run of backslashes, and if and only if every cell reads back as its trimmed value |
| Scan.TableUnderSubheading | internal/plan/plan.go:1098-1127 | the lookahead finds the first pipe row and whether a delimiter follows it, as the fold does line by line |
| Scan.ScanTable | internal/plan/plan.go:1002-1092 | the walk with its lookahead computes the fold over the kinds of the lines |
| ScanMeaning.ScanIsByPosition | internal/plan/plan.go:1002-1092 | the walk means: header at the first live pipe line, rows up to the first live line that closes the block, and what lies beyond |
| ScanMeaning.InterruptedIff | internal/plan/plan.go:1142-1151 | a region is reported exactly when part of it was never read |
| ScanMeaning.NoSilentLoss | internal/plan/plan.go:1002-1151 | when nothing is reported, every pipe line outside fences is the header, a separator, a placeholder, a row read with its own line number, or under a subheading that opens its own table |
| ScanMeaning.RowsAreRead | internal/plan/plan.go:1075-1092 | every row read is a live pipe line below the header, in document order, with its own line number and cells |
| ScanMeaning.KindIs | internal/plan/plan.go:1024-1139 | a line is blank, a fence of either kind, a table row, a subheading or prose by how its trimmed text begins |
| ScanMeaning.PlaceholderIs | internal/plan/plan.go:71 | a placeholder is nothing, a hyphen, an em dash, or na, n/a, none, (none) or tbd in letters of either case |
| ScanEdits.RowRewritten | internal/plan/plan.go:1002-1092 | rewriting one data row as another changes that row of the scan and nothing else |
| ScanEdits.RowInserted | internal/plan/addfinding.go:303-316 | a data row inserted at the end of the rows is one more row at the end, interrupted or not as before |
| ScanEdits.BlankInserted | internal/plan/plan.go:1059-1070 | a blank line inserted anywhere changes neither the header nor any row's cells |
| ScanEdits.FencedEdit | internal/plan/plan.go:1024-1042 | any lines inside a fence exchanged for any, of any number, that do not close it change neither the header nor any row's cells, and nothing at all when there are as many |
| Section.SectionRegion | internal/plan/plan.go:1156-1170 | the nested loops find the first heading of the name and the next heading after it |
| Section.TitlesAre | internal/plan/plan.go:1156-1170 | the four sections a plan is read by are level-two headings titled Findings, Evidence ledger, Layer matrix and Ranked targets, whatever their case |
| Section.ColumnIs | internal/plan/plan.go:1319-1331 | a column is the first whose header cell holds the name somewhere whatever its case, but Run the first whose whole cell is that word, and there is none exactly when no cell does |
| Section.RegionsApart | internal/plan/plan.go:1156-1170 | sections of different names share no line |
| Section.SectionMoved | internal/plan/addfinding.go:311-316 | a line inserted in one section moves every other section and changes what none of them reads |
| Record.RecordOneCell | internal/plan/plan.go:638-689 | the byte-offset splice computes the document whose one cell is exchanged, or the refusal, case by case |
| Record.ValuesAre | internal/plan/plan.go:403-408 | nothing is recorded but sha256: with 64 small hexadecimal digits in the digest column, and host or sandbox in the mode column |
| RecordLaws.RecordReadsBack | internal/plan/plan.go:638-689 | after a recording the ledger reads back identical but for the named column of the first row with the id, and every other line is the same |
| RecordLaws.RecordElsewhere | internal/plan/plan.go:612-627 | no other section reads differently after a recording |
| RecordLaws.RecordAgain | internal/plan/plan.go:638-689 | recording the same value again is the identity on the document |
| RecordLaws.RecordCommutes | internal/plan/plan.go:638-689 | recordings at different places commute as documents |
| RecordLaws.DigestAndModeCommute | internal/plan/plan.go:612-627 | the digest and the mode of a row are recorded in any order |
| Recording.RecordResults | internal/admit/admit.go:173-214 | the loop records row by row in memory, and one row that cannot be recorded refuses the whole document |
| Recording.WithoutModeColumn | internal/admit/admit.go:188-203 | a ledger without a Mode column takes a host recording as it is and refuses a sandbox one |
| Recording.RecordedElsewhere | internal/admit/admit.go:173-214 | recording any number of rows leaves every section but the ledger as it reads |
| Pins.PinsRecorded | internal/admit/admit.go:173-214 | recording the pins of rows as wide as the header always succeeds, and each ledger row carries exactly its own pins |
| Findings.FillRow | internal/plan/addfinding.go:243-287 | the slice of cells filled in place, column by column, is the row that `RowValuesAre` describes, or the first needed column that is missing refuses |
| Findings.RowValuesAre | internal/plan/addfinding.go:243-287 | a row is filled exactly if the id is no placeholder, each of the nine values that is needed has a column of its name and no value shifts it; then every column holds the value whose name resolves there, the id its own, and the others nothing |
| Findings.IdColumnIs | internal/plan/addfinding.go:293-300 | the id goes to the first column whose whole trimmed name is Id |
| Findings.PartsAre | internal/plan/addfinding.go:161-176 | an evidence cell names the pieces between its commas, semicolons, slashes and spaces, without the backticks around them |
| FindingLaws.AddedReadsBack | internal/plan/addfinding.go:180-190 | an accepted row is read as one more row at the end, on the line reported, if and only if its cells are a data row |
| FindingLaws.AddedIsRead | internal/plan/addfinding.go:127-146 | under a header of distinct columns with Id first, every accepted finding is read back: location under Finding, severity under Severity, and so on for the nine columns by name, each trimmed, and each there if it is needed |
| FindingLaws.AddedElsewhere | internal/plan/addfinding.go:180-190 | every other section reads the same cells after an insert |
| Acceptance.AcceptedIff | internal/plan/addfinding.go:79-190 | a finding is accepted if and only if the plan has an uncut Findings table, its values are in order and would not shift the row, the columns they need are there, its id is new, its citations stand and the document it leaves passes the checks |
| Gaps.Compute | internal/plan/gaps.go:193-221 | the passes over one shared report compute the report the definition gives |
| Gaps.Tally.OwnedRows | internal/plan/gaps.go:226-241 | a run owns exactly the rows whose cell names it, and every other row leaves what it owes the report |
| Gaps.Tally.ScopedRow | internal/plan/gaps.go:330-348 | one row is the run's, somebody else's, nobody's or malformed, and only the last two are reported |
| Gaps.Tally.LayerRowGaps | internal/plan/gaps.go:266-286 | one layer row adds its own count to the report and changes nothing else of it |
| Gaps.Tally.RankedRowGaps | internal/plan/gaps.go:290-305 | one target row adds its own count to the report and changes nothing else of it |
| GapsLaws.EveryRowIsSomebodys | internal/plan/gaps.go:226-348 | a table owes, as a bag, what its runs owe together and what the blank and the malformed rows owe |
| GapsLaws.ReportsAreConserved | internal/plan/gaps.go:185-221 | the whole-document totals of either breadth table are the sum over all runs plus the blank and malformed rows |
| GapsLaws.OwedIsTheRest | internal/plan/gaps.go:266-305 | what counts is what is done and what is owed, and nothing is owed exactly when every row is done or not to be done |
| GapsLaws.OwedAreRows | internal/plan/gaps.go:266-305 | every owed entry names a row that is not settled, by its own line and first cell |
| GapsLaws.ReportsAddUp | internal/plan/gaps.go:193-221 | in every report of every run the totals are the done and the owed |
| GapsVerdict.StatusWords | internal/plan/gaps.go:163-168 | the words of the three lists of statuses, in letters of either case |
| GapsVerdict.RowCounts | internal/plan/gaps.go:266-305 | a row that is n/a, na, none or skipped is not counted, one that is done, fixed or closed is done, and any other is owed under its line, name and skill, and named as unrecognized if its status is none of the words for work to do |
| GapsVerdict.NothingOwedIff | internal/plan/gaps.go:52-54 | a report says that nothing is owed if and only if breadth was planned, every row of the run says it is done or not asked for, the tables are whole, and a run that is asked about was opened by somebody and every row's run can be read |
| GapsVerdict.CutsAre | internal/plan/gaps.go:246-318 | a table that was cut is reported at the line that ended its block, or at the fence that never closes |
| Upgrade.TableHeaderAndSeparator | internal/plan/upgrade.go:68-95 | the loop finds the header the walk finds and the first delimiter below it |
| Upgrade.UpgradeText | internal/plan/upgrade.go:26-64 | the collected updates rewrite exactly the lines they name, or one table's refusal leaves the text unwritten |
| UpgradeLaws.TableWidened | internal/plan/upgrade.go:26-64 | a stamped table reads back with the Run column and the run in every row, line numbers unchanged |
| UpgradeLaws.UpgradeElsewhere | internal/plan/upgrade.go:26-64 | no section but the two breadth tables reads differently |
| UpgradeLaws.UpgradeTwice | internal/plan/upgrade.go:26-64 | a second upgrade, for any run, finds nothing to do |
| UpgradeCount.UpgradeKeepsCount | internal/plan/upgrade.go:26-64 | stamping both tables gives the run the whole plan's report word for word: totals, owed names, line numbers; the one difference is that a plan without any row reports the run missing |
| Writers.WriteKeepsRows | internal/plan/addfinding.go:79-104 | each of the three writers keeps the Findings header and every finding, and only add-finding adds one, at the end |
| Writers.WriteKeepsLedger | internal/plan/upgrade.go:26-64 | only a recording changes what the ledger reads |
| Protocol.RunKeeps | internal/admit/admit.go:239-319 | what every step of every process keeps, in every interleaving |
| Protocol.CommitsChain | internal/admit/admit.go:239-257 | each committed write was computed from the very content it replaced, and the last one is what is on disk |
| Protocol.MutualExclusion | internal/plan/addfinding.go:333-347 | two processes never hold the lock at once, counting the helper of a wait that timed out |
| Protocol.WritesAreWhole | internal/plan/addfinding.go:401-426 | the disk changes only at a rename, from the content a document was computed from to that whole document |
| Protocol.TimedOutNeverWrites | internal/admit/admit.go:259-280 | a recording that timed out commits nothing, whatever happens after |
| Protocol.LateLockIsGivenBack | internal/admit/admit.go:259-280 | a lock won too late is given back, and nothing is written while the helper has it |
| Protocol.CrashFreesTheLock | internal/plan/addfinding.go:333-347 | a process that crashes at any step leaves the disk as it is and does not keep the lock |
| Protocol.FindingsAreConserved | internal/plan/addfinding.go:79-104 | in every interleaving the findings are the first document's and one row for each committed add-finding, in commit order |
| Protocol.NoLostFinding | internal/admit/admit.go:239-319 | every finding reported as written is a row of the plan on disk, each value in its column, whatever the other writers did |
| ProtocolLive.AloneWrites | internal/plan/addfinding.go:51-58 | a writer that runs alone from any state with a free lock ends in success with the disk replaced by what add-finding, upgrade or the recording computes from it, or in success with nothing to write, or refused with the disk as it was; and the lock is free again |
| ProtocolLive.FreeLockIsTaken | internal/plan/addfinding.go:333-347 | in every reached state with a free lock a waiting writer gets it with what it brought, and so does the helper of one that gave up |
| ProtocolLive.WaitIsBounded | internal/admit/admit.go:259-280 | only a recording may stop waiting, before or after its lock is won, and then its helper is left with the wait or with the lock |
| ProtocolLive.WritersMayFail | internal/plan/addfinding.go:401-426 | a writer that fails before it replaced the document or crashes at any time has written nothing, keeps no lock and has not succeeded |
| ProtocolLive.ReplacedEnds | internal/admit/admit.go:282-319 | after its rename a writer ends in success with the lock free, but a recording that lost the directory sync reports failure |
| ProtocolLive.RecordingIsFresh | internal/admit/admit.go:239-257 | under the lock a recording writes what it computed exactly if the plan is what it read before its rows ran, and else ends refused with nothing written |
| ProtocolLive.StepsEnd | internal/admit/admit.go:239-319 | every step of a reached state that changes anything, a start aside, brings the run nearer its end |
| ProtocolLive.NoDeadlock | internal/admit/admit.go:259-280 | until every writer has ended, crashed or given its late lock back, some step of the protocol itself changes the state |
| ProtocolLive.EveryRunCanEnd | internal/admit/admit.go:239-319 | every reached state can be run, without a failure, a crash or an end of patience, to one in which every writer is over and the lock is free |
| Shell.ExpansionInterior | internal/evidence/evidence.go:659-673 | the brace that brings the depth back to zero ends the interior |
| Shell.StepDouble | internal/evidence/evidence.go:601-614 | one step inside double quotes accounts for what it consumes |
| Shell.StepUnquoted | internal/evidence/evidence.go:619-636 | one step outside quotes accounts for what it consumes |
| Shell.MarkersFrom | internal/evidence/evidence.go:573-586 | the indexed walk with its recursion into expansions computes the markers of the text |
| ShellJoins.WalkIsExact | internal/evidence/evidence.go:569-673 | for every command whose expansion bodies hold no quote, backslash or brace but nested expansions, the walk reports only what is live once lines are joined and the separators inside unquoted expansion bodies, and misses one exactly if the only live substitutions have a continuation between their two characters |
| ShellJoins.ExactOnOneLine | internal/evidence/evidence.go:569-673 | for such a command of one line it reports exactly those |
| ShellReading.OneReading | internal/evidence/evidence.go:569-673 | a text has at most one reading in the grammar, and the reader finds it exactly if there is one |
| ShellClean.ProperHasReading | internal/evidence/evidence.go:645-673 | every command whose expansions are closed and hold no quote, backslash or lone brace has a reading |
| ShellClean.ExactWithoutExpansions | internal/evidence/evidence.go:569-673 | for every command without an expansion the walk reports exactly the live markers of its reading, but for a hidden substitution |
| ShellClean.CleanIffNothingLive | internal/evidence/evidence.go:548-556 | both passes let a command with a reading through if and only if nothing in it is live but perhaps a hidden substitution and no separator stands in an unquoted expansion body; a command of one line, if and only if nothing is |
| ShellClean.FirstMarker | internal/evidence/evidence.go:159-185 | the marker a command is refused for is the first reported one in the order of the table, written out, redirections in the late pass |
| ShellClean.ContinuationHides | internal/evidence/evidence.go:601-614 | a double-quoted dollar sign, backslash, line's end and parenthesis pass both times although the shell substitutes there |
| LedgerCommands.LedgerCommandsAreExact | internal/evidence/evidence.go:532-556 | the command of every ledger row is one line, so there both passes are exact |
| Mutations.StaysInside | internal/plan/plan.go:558-568 | a cleaned path that does not start with a step up holds none |
| MutationLaws.CleanLeads | internal/plan/plan.go:558-566 | a cleaned path leads where the path leads, from every directory, and has no segment that stays |
| Mutations.OneWholeFileEdit | internal/admit/replay.go:130-160 | a validated edit of the named line is the replacement of the first occurrence in the whole file |
| MutationLaws.ValidIff | internal/plan/plan.go:558-590 | an edit may be made if and only if its path is relative and leads nowhere out of the tree, to a file that has the line, the line holds the text, and the file holds it only once |
| Mutations.ReplayWith | internal/admit/replay.go:195-230 | edit, run, put back, run again: nothing runs once the tree cannot be built or put back |
| Mutations.ReplayIsControlled | internal/admit/replay.go:165-230 | a replay that is not refused ran once with exactly that edit and once with the file back byte for byte, whatever the disk did to the write |
| Mutations.ReplayUndoes | internal/admit/replay.go:195-230 | with an honest disk and a command that leaves other files alone, the second run is in the very tree that was validated |
| MutationCells.SurveyReadsBack | internal/plan/plan.go:454-553 | a survey written edit by edit parses back to the same edits with the same declarations |
| MutationLaws.EditIs | internal/plan/plan.go:510-548 | an edit is read by its first arrow, its last at sign and the last colon behind that, each part trimmed, a leading tilde declaring it equivalent; a cell of another shape is malformed, and one that changes nothing is no edit |
| MutationLaws.SurveyIs | internal/plan/plan.go:454-466 | a cell is read edit by edit between its separators, or not at all for the reason of the first edit that cannot be read |
| Ledgers.ReadLedger | internal/plan/plan.go:361-399 | each ledger row carries its cells under the names of their columns, its label last |
| Ledgers.LedgerIs | internal/plan/plan.go:361-400 | each ledger row stands for one line of the section: the id is its first cell, the label its last, and each of the twelve other fields the cell under the column of its own name |
| Evidence.NormalizeLines | internal/evidence/evidence.go:748-757 | the structural pass strips every line and then the empty lines off the end |
| Evidence.DigestForgives | internal/evidence/evidence.go:713-757 | two outputs have one digest exactly when, line by line, they are the same but for the spaces, tabs and carriage returns either line ends in, a line one of them lacks being empty; what is hashed is those lines without such ends and without empty lines at the end; a second pass changes nothing |
| Evidence.ReplaySurvey | internal/evidence/evidence.go:471-516 | the loop stops at the first edit that breaks its declaration, with the reason of that edit |
| Evidence.SurveyIff | internal/evidence/evidence.go:471-516 | a survey holds if and only if every edit does; then killed and equivalent add up to all edits and the last restored output is handed on |
| Evidence.AdmittedSurvey | internal/evidence/evidence.go:406-454 | a row with edits is admitted only if each behaved as declared, every restored run was green and the last restored output has the first run's digest |
| Evidence.Admit | internal/evidence/evidence.go:199-210 | the rows that were asked about are decided in document order |
| Admission.OneResultEach | internal/evidence/evidence.go:199-210 | there is one result for each row that is asked about, all of them when none is named, in document order, and a row is recorded if its own id is to be |
| Admission.CommandIs | internal/evidence/evidence.go:532-541 | the command is the trimmed cell, or what stands between the two backticks of one that starts and ends in one and has no other |
| Admission.EarliestReasonWins | internal/evidence/evidence.go:218-345 | before its command runs a row is refused for the first of twelve things that is wrong with it, in the order the program promises |
| Admission.ResultIs | internal/evidence/evidence.go:346-454 | a row with nothing wrong is named in a dry run, refused for a first run that does not come out or prints nothing, and else answers the one digest of its two observations, admitted if it is to be recorded or pins it and refused for pinning another or none |
| Admission.AdmittedIff | internal/evidence/evidence.go:218-454 | a row is admitted with a digest if and only if it declares one plain command with nothing the shell reads as syntax, its other cells can be used, the run executes, it is recorded or pins that digest in the run's mode, and the command was observed with it twice |
| RecordCheck.RecordThenCheck | internal/admit/admit.go:59-214 | what a run records can be written, and a second run in the same mode with the same answers admits every recorded row without recording and leaves every other verdict |
| Settings.FilterStopGates | internal/sync/sync.go:650-689 | the loops that write each entry back as they go leave the Stop list without the gates that are not to stay, and say whether one went and whether the kept command is there |
| Settings.WireLeaves | internal/sync/sync.go:615-637 | wiring leaves every other hook in order, no gate but the command, and the command once more only if it was not there |
| Settings.WireTwice | internal/sync/sync.go:615-637 | wiring twice is wiring once |
| Settings.UnwireLeaves | internal/sync/sync.go:641-644 | unwiring takes away every gate and no other hook |
| Settings.UnwireRestoresIff | internal/sync/sync.go:615-689 | unwiring undoes wiring exactly for settings without a gate whose Stop list is written out in full |
| SettingsShape.WiredIs | internal/sync/sync.go:615-637 | wiring leaves every key but the Stop list as it was, and of that each entry that is not all gates without its gates, in order, and at the end the one new entry, written out, exactly if the command was not there |
| SettingsShape.UnwiredIs | internal/sync/sync.go:641-644 | unwiring leaves every key but the Stop list as it was, and of that each entry that is not all gates without its gates |
| SyncPlan.ManifestClaims | internal/sync/plan.go:162-192 | the loops over sorted components keep the claim of the smallest key for each path, and the first hook |
| SyncPlan.WinnersAre | internal/sync/plan.go:162-196 | a path is claimed exactly when some claim has it, by one of the smallest key |
| SyncClaims.ClaimsAre | internal/sync/plan.go:162-192 | a path is claimed if and only if a component that is no hook and is for the host or for every host has a file that goes there, and by the one whose component, source, destination and digest come first |
| SyncClaims.HookIs | internal/sync/plan.go:162-192 | the hook of a host is the first by name of the hooks for it, and there is none exactly when none is |
| SyncPlanLaws.BuildHostPlan | internal/sync/plan.go:93-160 | the three groups appended and sorted are the plan, whatever order the maps are walked in |
| SyncPlanLaws.EveryPathHasItsAction | internal/sync/plan.go:93-160 | every claimed, recorded or present path has its action |
| SyncPlanLaws.NoOtherAction | internal/sync/plan.go:93-160 | no path has two actions, and no action is without such a path but the hook's |
| SyncPlanLaws.PlanHasNoOrder | internal/sync/plan.go:60-85 | the plan depends neither on the order of the hosts nor on that of the components |
| SyncTold.PlanTold | internal/sync/plan.go:88-160 | each action is the class its path has by claim, disk and record alone, under the component it is claimed for or installed under; each path with a class has its action; and the hook has one exactly if it is needed |
| SyncTold.MovedIsFresh | internal/sync/sync.go:249-304 | a host whose directory moved is synced as one of which nothing is recorded |
| SyncTold.ComponentsRecorded | internal/sync/sync.go:400-408 | the components a sync records for a host are those that are for it |
| SyncSafety.SyncIsSafe | internal/sync/sync.go:195-370 | a sync, cut short anywhere, keeps that all replaced content but that of a settings file it wrote is backed up or shipped and all records are of shipped payloads |
| SyncLaws.UninstallIsSafe | internal/sync/uninstall.go:74-297 | an uninstall, cut short anywhere, keeps the same |
| SyncLaws.NoContentLost | internal/sync/sync.go:306-370 | over any history, content that was overwritten or deleted at a path that is no written settings file is in the store under that path with its exact bytes, or the tool shipped it |
| SyncLaws.NothingUnseen | internal/sync/sync.go:306-370 | content that is gone after a run is recorded as replaced, so the law above covers it |
| SyncLaws.ForeignUntouched | internal/sync/plan.go:93-160 | a path neither claimed nor recorded, and no settings file of the hook, never changes, forced or not |
| SyncSettings.SyncRewritesIff | internal/sync/sync.go:501-540 | a sync, cut short anywhere, changes a file no host is claimed if and only if it is the wired host's settings, the hook is needed, the file can be read and is not wired as it should be, and the run gets as far as putting something else there; then it holds that, and no snapshot was taken |
| SyncSettings.UninstallRewritesIff | internal/sync/uninstall.go:196-270 | an uninstall, cut short anywhere, changes a file that is not recorded if and only if it is the settings file of the last wired host, that has a gate, nothing stops the run and it gets as far as putting something else there; then it holds that, and no snapshot was taken |
| SyncSettings.MergedAreSettings | internal/sync/sync.go:501-540 | no other file is ever written without a snapshot or a shipped payload in its place |
| SyncSettings.RefusedIff | internal/sync/sync.go:249-262 | a sync is refused, and saves nothing, exactly when the wired host's settings are there and are no JSON object |
| SyncSettings.SettingsAreLost | internal/sync/sync.go:526-540 | a first sync of a user's settings leaves their old text nowhere |
| SyncFixed.ChangedUntouched | internal/sync/sync.go:306-339 | without force a recorded file that matches neither its record nor its payload is untouched by a sync |
| SyncFixed.ChangedNotRemoved | internal/sync/uninstall.go:154-192 | without force a file that matches no record of it is untouched by an uninstall |
| SyncFixed.SecondSyncIsQuiet | internal/sync/sync.go:195-304 | after an undisturbed sync a second one creates and updates nothing, changes no file, snapshot or record, has nothing to save, and rewires the hook only if the version's own command is legacy |
| SyncFixed.SyncSettles | internal/sync/sync.go:195-370 | after a whole sync every claimed file is the payload and recorded so, or was changed and is left alone, host by host |
| SyncClaims.FirstSync | internal/sync/sync.go:195-247 | a first sync on an empty disk leaves exactly the files the version ships for the hosts, each with the payload bound for its path, and the wired host's settings with the command exactly if there is a hook for it |
| SyncUndo.UninstallExactly | internal/sync/uninstall.go:154-297 | a whole uninstall that nothing stops takes away exactly the recorded files that may be removed, and leaves every other but the settings file it unwires |
| SyncTold.StopsTold | internal/sync/uninstall.go:74-111 | an uninstall is refused exactly when the settings of a wired hook cannot be read, or when it is not forced and a file it is asked for was changed |
| SyncTold.RemovableTold | internal/sync/uninstall.go:154-194 | what is taken away is each recorded file that is still claimed, or every recorded file when orphans are asked for |
| SyncTold.RecordsLeft | internal/sync/uninstall.go:220-299 | the records that stay name exactly the files that were not asked for and a hook that was not wired, and no host that something was taken from and that has nothing left |
| SyncTold.UnwiredTold | internal/sync/uninstall.go:196-218 | the settings an uninstall unwires are those of the last host by name whose hook is wired |
| SyncUndo.UninstallUndoes | internal/sync/uninstall.go:74-297 | installing where nothing was installed and uninstalling leaves the record empty and every file but settings files as they were; the wired host's settings are wired, and those of the last host with a hook unwired |
| SyncUndo.SettingsRestoredIff | internal/sync/uninstall.go:196-297 | the settings of the one host with the hook come back exactly if they were there, as the printer has them, without a gate and with their Stop list written out |
| SyncMachine.Machine.Snapshot | internal/sync/backup.go:56-96 | a snapshot keeps the file's content under its path in the run's directory, and fails only where there is no file |
| SyncMachine.Machine.Perform | internal/sync/sync.go:341-370 | a file is written or removed only after its snapshot |
| SyncMachine.Machine.ApplyHook | internal/sync/sync.go:501-540 | the settings are written only for the one host and only if wiring changes their text |
| SyncMachine.Machine.ExecuteAction | internal/sync/sync.go:306-370 | an action does to the files, the settings, the store and the record what its class says |
| SyncMachine.Machine.SyncHost | internal/sync/sync.go:249-304 | unreadable settings refuse the host; else the actions in order, each recorded as it is done, and whether there is something to save |
| SyncMachine.Machine.SyncHosts | internal/sync/sync.go:195-247 | the installer, changing its machine in place, is the sync the laws are about |
| SyncMachine.Machine.PlanUninstall | internal/sync/uninstall.go:113-217 | the nested loops classify every recorded file, note what blocks and read the settings before anything is touched |
| SyncMachine.Machine.ApplyUninstall | internal/sync/uninstall.go:220-270 | the planned steps are done in order, and what each host lost is noted |
| SyncMachine.Machine.CleanRecords | internal/sync/uninstall.go:272-296 | the noted losses go from the records, and a host of which nothing is left goes with them |
| UninstallPlan.PlanIsTasks | internal/sync/uninstall.go:113-270 | the planned steps are the tasks the laws are about |
| UninstallPlan.PlanCleans | internal/sync/uninstall.go:220-297 | the records the loops leave are the ones the laws are about |
| SyncMachine.Machine.UninstallAll | internal/sync/uninstall.go:74-297 | plan, refusal, removals and records in place are the uninstall the laws are about |
| Keys.DecodeComplete | internal/tui/keys.go:22-49 | the loop decodes the stream token by token |
| Keys.Decoder.Decode | internal/tui/keys.go:82-103 | a read emits what is complete and holds a trailing partial sequence |
| Keys.Decoder.Flush | internal/tui/keys.go:109-113 | a flush emits what is held and holds nothing |
| Keys.DecodeReads | internal/tui/keys.go:82-113 | a decoder fed read by read and flushed |
| KeysExact.StreamingIsBatch | internal/tui/keys.go:22-113 | a stream in which no ESC directly follows ESC [ or ESC O decodes alike under every cut into reads |
| KeysExact.StreamingIffGood | internal/tui/keys.go:22-113 | exactly which streams do: from the first such ESC on, pairs ESC b to the end, but for a lone ESC after an even number of them or a 5 or 6 after an odd number of which the last is ESC [ |
| KeysArrive.KeysRead | internal/tui/keys.go:22-75 | every sequence of keys, in either form a terminal sends them, decodes to that sequence |
| KeysArrive.TokenIs | internal/tui/keys.go:22-76 | every stream is read token by token, byte values and lengths written out: four plain keys, Escape, four sequences, and unknown for anything else |
| KeysArrive.KeysArrive | internal/tui/keys.go:22-113 | and so it does however the reads cut its bytes |
| Pool.CostOvershoot | internal/bench/run.go:308-345 | in every interleaving spending stays below the ceiling plus one unit's most for each worker |
| Pool.AtMostWorkers | internal/bench/concurrency.go:20-41 | never more units hold a slot or run than there are workers, the number asked for or one, and a unit that waits gets a slot whenever fewer do |
| Pool.SkippedOnlyAtCeiling | internal/bench/run.go:308-330 | a unit is skipped only once spending reached the ceiling |
| Pool.ResultsInPlace | internal/bench/concurrency.go:20-41 | each result stands at its own index, a panic as a failure |
| Pool.SpentIsTotal | internal/bench/run.go:308-345 | what was spent is the sum of the costs in the results, none lost or counted twice |
| Pool.NoDeadlock | internal/bench/concurrency.go:20-41 | until every process has ended one of them can move |
| Pool.StepsEnd | internal/bench/concurrency.go:20-41 | every move brings the run closer to its end |
| Corpus.BuildText | internal/bench/run.go:164-174 | the loop builds the text that is hashed |
| Corpus.PartEnds | internal/bench/run.go:178-180 | a part ends where its length says, whatever characters follow or are in it |
| Corpus.CorpusTextIff | internal/bench/run.go:164-180 | two corpora give one text if and only if they run as often and hold the same bag of name, request and bag of ids |
| Pagination.CursorLeaves | bench/cases/n05-keyset-pagination/fix/all/src/pagination.js:9-32 | a cursor leaves exactly the rows after its row, although it carries an id only when the time is shared |
| Pagination.PageIs | bench/cases/n05-keyset-pagination/fix/all/src/pagination.js:25-33 | a limit below one is refused; else a page has the next rows up to the limit, and a cursor exactly if rows are left |
| Pagination.CollectAll | bench/cases/n05-keyset-pagination/fix/all/src/pagination.js:25-44 | every page concatenated ends, and is every row once in feed order |
| Csv.ParseLine | bench/cases/n01-csv-rfc4180/fix/all/src/csv.js:13-52 | the index loop computes the fields, or which error |
| Csv.ParseUndoesRender | bench/cases/n01-csv-rfc4180/fix/all/src/csv.js:2-52 | parsing a rendered record gives its fields, those without quotes trimmed |
| Csv.RoundTripIff | bench/cases/n01-csv-rfc4180/fix/all/src/csv.js:2-52 | the record comes back exactly if and only if it is not one empty field and no field without quotes starts or ends with white space |

## Left out

- Processes, docker, git, file modes, fsync and the per-OS lock: the lock is one atomic acquire and release, a file is one value, and running a command is a function of the tree it runs in.
- `plan init`, which takes no lock, and `Restore`, which overwrites without a backup on purpose.
- Regular expressions (the path citation, the fingerprint, the placeholders, a row's Normalize), the comparison of two finding ids whatever their case, and SHA-256: functions of the caller, the hash injective where a law needs it.
- `CheckDocument` and the micro-plan declaration: functions of the caller; of a refusal only its reason is kept, not its prose.
- Editors that write a plan without its lock, and the symlinks by which one plan may have several spellings.
- Edits a user makes while a sync or an uninstall is at work, and edits of the state record or of the backup store.
- JSON text: settings are parsed and printed by functions of the caller, and whether a command runs a gate is one too. The doctor's repair of a hook (`RewireStopHook`), which merges alike outside a sync, is not modelled.
- Reading a directory tree: the disk is a map from paths to contents, so a directory that cannot be read is not modelled.
- `payloadsForHost` keyed by path: two files of a version bound for one destination are told apart by the claim's key only.
- A state record whose assets are empty is saved as if it had none, so a host that is claimed no file is saved again by every sync; `SecondSyncIsQuiet` says so by its premise.
- The terminal reports of every command, exit codes and flag handling: formatting and plumbing.
- Invalid UTF-8 and carriage returns other than as the white space the readers trim.
- Floating-point rounding of costs: the pool counts real numbers.
- `localeCompare` and `>` are one total order of strings here, a parameter; where they differ the program is not the one modelled.
- Commands in which an expansion body holds a quote, a backslash or a lone brace: the grammar of `ShellJoins.WalkIsExact` does not read them, because there the walk can go on in a quoting state the shell is not in.
- The special parameter `$$` is not told apart from a dollar sign before an expansion, as the quoting rules do not.
