# Status dashboard: models and proofs

A status monitor in three parts. Probers report to an orchestrator, the orchestrator merges their
results into one report per cycle, and the dashboard turns reports, and missing reports, into outages
with an audit trail. This project models the logic of those parts in Dafny and proves what holds over
all inputs and all runs.

`dafny verify dfyconfig.toml` checks everything.

## How it is organised

The outage lifecycle

- `base`, `models`, `configuration`: instants, Go's `TrimSpace`, severities, outage rows, validation, time
  truncation, the configuration that the dashboard looks up.
- `store`: tables, audit log and the transactions that write them, with an error injected at any
  statement. Functions on `Db` values say what a transaction does; the class `OutageStore` performs it
  step by step and rolls back.
- `report`, `absent`, `users`: the three writers, each as a specification function and a class whose
  methods are proved to compute it.
- `authorship`: whom the audit log names.
- `runs`: the dashboard as a state machine. A run is any sequence of reports, absent-report checks and
  user requests, with any clock, any failures and any order of rows in result sets. `audit` holds the
  invariant of the log.
- `effects`, `dedup`, `activity`, `deadline`: what the writers do row by row, no duplicate outages, the
  two notions of "active", and the absent-report deadline. `overlap`: two report requests at once.
  `namesake`: a monitor that goes by the checker's name. `sample`: a configuration for concrete runs.
- `status`: the status of components and sub-components.

The monitor

- `ordering`, `text`: strict orders, sorting, joining and splitting.
- `merge`: one cycle's results become one canonical report. `endtoend`: that report, processed by the
  dashboard.
- `builds`, `signatures`, `junit`: the JUnit prober, from build identifiers to the verdict, and on to an
  open outage.
- `channel`: the result channel under every interleaving.

Protocols and strings

- `pagecache`: the page cache under every interleaving of its callers.
- `reload`: the configuration manager and the orchestrator swap.
- `slug`, `unitname`: slugs and the systemd unit escape.

Instants are integers, nanoseconds since Go's zero time, so that `IsZero` is `t == 0`. Strings are
sequences of characters compared by code point, which is the order of their UTF-8 bytes.

## Where the code does less than it seems to

Each of these is a lemma, with the exact condition where there is one.

- A CREATE audit entry never shows the outage's reasons, because its hook runs before they are inserted:
  two consecutive documents of an outage differ exactly there (`OldEqualsPreviousNew`, and
  `CreateHidesReasons` for an example).
- A row whose start lies within the first second after Go's zero time is accepted and stored with that
  zero time as its start (`FrozenRows`). From then on no automatic writer can end it
  (`ResolveAccepted`), and a PATCH is refused unless it names another start (`PatchAccepted`).
  `EarlyOutage` is such a creation.
- A monitor named like the absent-report checker ("dashboard") can have several open outages. A visit leaves
  more open under a name than one and than there were exactly if it is the checker's own name, one
  outage is open under it already, and the visit opens an absent-report outage beside it
  (`VisitExceeds`). One report and one later check do that to the empty database (`NamesakeRun`).
- Any monitor with two overlapping requests can have two open outages, exactly if both report a
  sub-component unhealthy with a reason while nothing is open (`OverlappingReportsDuplicate`,
  `OverlapExample`).
- The comparison used for sorting build identifiers orders them exactly if no two are integers of one value
  and no other identifier stands, as text, between two integers whose texts stand the wrong way round
  (`GreaterOrdersExactly`). `GreaterIsNoOrder` has an example of each.
- Commas in test names can make different failures look the same (`CommaConfuses`, `SameSignature`).
- Unconfirmed outages never change the severity drawn from confirmed ones, but they can change the page of a
  component: exactly when they change whether fewer sub-components are named than configured, which
  turns partial into a severity (`UnconfirmedOnPage`, `UnconfirmedExample`).
- Outages of sub-components that are no longer configured can make a component look partially or fully
  affected (`StaleNamesMislead`, `StaleExample`).
- A JUnit history can be judged on no builds at all when build identifiers cannot be ordered
  (`EmptyHistory`); never when they can (`HistoryNeverEmpty`).
- A result whose probe was started in one cycle can be collected in a later one, exactly if such a probe
  is still running when the drain before that cycle ends (`LateResult`). One timeout is enough
  (`DrainReached`).
- A file replaced between the two reads of a poll leaves the manager with the digest of one file and the
  configuration of another (`TornReads`, `TornExample`).
- The component monitor gets out of step with its manager exactly when it misses a change, before its callback is
  registered or while no orchestrator can be started, to a configuration other than the running one
  (`LeavesStep`, `UpdateMissed`), and back exactly as `ReturnsToStep` says.

## Model

| member | source | states |
|---|---|---|
| Base.TruncateMonotone | pkg/repositories/outage_repository.go:44-58 | truncating to whole seconds keeps the order of instants |
| Base.TrimSpaceIdempotent | cmd/dashboard/handlers.go:230-233 | a description that was trimmed once is not changed by trimming it again |
| Base.TrimSpaceBlank | pkg/types/models.go:114-116 | the emptiness test on the trimmed description is the test for a description of white space only |
| Base.AsciiSpace | cmd/dashboard/handlers.go:230-233 | the ASCII characters that `strings.TrimSpace` removes |
| Models.Validate | pkg/types/models.go:101-131 | a row is accepted exactly if its severity is known, its start set, its description not blank, and source and creator named |
| Models.RoundedIdempotent | pkg/repositories/outage_repository.go:44-58 | truncation is a projection: stored times are its fixed points |
| Store.OutageStore.CreateOutage | pkg/outage/outage_manager.go:62-96 | with an error at any statement: either the row, its CREATE entry and all reasons are there, or nothing but a used-up identifier |
| Store.OutageStore.UpdateOutage | pkg/outage/outage_manager.go:99-124 | a valid row of the same sub-component replaces the stored one together with its UPDATE entry, or the tables stay as they were |
| Store.OutageStore.DeleteOutage | pkg/outage/outage_manager.go:167-170 | the row goes together with its DELETE entry, or the tables stay as they were |
| Store.AtomicCreation | pkg/outage/outage_manager.go:62-96 | a valid creation without an error before its last statement adds the row with whole seconds, its CREATE entry in the user's name and all reasons; any other leaves the tables alone |
| Store.AtomicUpdate | pkg/outage/outage_manager.go:99-124 | a valid update of a located row without an error replaces it and adds one UPDATE entry in the user's name with both versions; any other changes nothing |
| Store.AtomicDelete | pkg/outage/outage_manager.go:167-170 | a delete of an existing row without an error removes it and adds one DELETE entry in the user's name with the row; any other changes nothing |
| Store.OutageStore.UpsertPing | pkg/repositories/component_ping_repository.go:31-62 | only the ping of this sub-component changes |
| Store.OutageStore.ResolveAll | cmd/dashboard/component_monitoring_report.go:131-141 | every found outage is ended in turn; one that fails is left alone and the rest go on |
| Store.Listing | pkg/repositories/outage_repository.go:135-154 | a result set comes back in some order, each row once |
| Effects.ListingFollowsOrder | pkg/repositories/outage_repository.go:135-154 | every order of a result set is covered |
| Effects.ResolvedOpen | cmd/dashboard/component_monitoring_report.go:131-141 | auto-resolve ends exactly the open rows that validate and whose update succeeds, whatever the order of the result set |
| Audit.InsertedEvolves | pkg/types/models.go:189-233 | a committed creation keeps the audit invariant and rewrites no history |
| Audit.SavedEvolves | pkg/types/models.go:160-233 | so does a committed update that keeps the row's identity |
| Audit.RemovedEvolves | pkg/types/models.go:160-233 | so does a committed soft delete |
| Audit.TrailEnds | pkg/types/models.go:189-233 | the last entry of an outage says whether, and as what, it is in the table |
| Audit.TrailChained | pkg/types/models.go:160-233 | the entries of an outage form CREATE UPDATE* DELETE?, each Old being the previous New |
| Audit.CreateHidesReasons | pkg/types/models.go:203-215 | the first update of an outage created with a reason: its Old is not the CREATE entry's New |
| Audit.OldEqualsPreviousNew | pkg/types/models.go:203-215 | whole documents chain except exactly after the CREATE of an outage with reasons |
| Runs.StepEvolves | cmd/dashboard/handlers.go:732-781 | every event, with any failures, keeps the audit invariant, the identity of rows, and reasons once written |
| Runs.AuditReplays | pkg/types/models.go:160-233 | after any run, folding the log over the empty table gives the outage table, and every outage's entries chain |
| Runs.HistoryKept | pkg/repositories/outage_repository.go:61-76 | any two states of a run: cutting the log replays the earlier table; identifier, component, sub-component, creator and source of a row never change; a deleted identifier does not come back |
| Runs.RejectedReport | cmd/dashboard/handlers.go:732-772 | a report without a monitor or statuses, or with a status that the account may not report, changes nothing |
| Authorship.ReportSigned | pkg/types/models.go:216-232 | the entries a report adds are creations and updates in the name of its monitor |
| Authorship.CheckSigned | cmd/dashboard/absent_report.go:127-176 | the entries a check adds are creations in the name "dashboard" and updates in the name of the monitor of the outage's sub-component |
| Authorship.CreateSigned | cmd/dashboard/handlers.go:257-261 | a creation adds exactly one entry, about the new outage and in the person's name, if it is answered Done, and none otherwise |
| Authorship.PatchSigned | cmd/dashboard/handlers.go:365-369 | so does a PATCH |
| Authorship.DeleteSigned | cmd/dashboard/handlers.go:477-481 | so does a delete |
| Report.ValidateRequest | cmd/dashboard/component_monitoring_report.go:39-79 | no error exactly if every status names a configured sub-component of this monitor in a component this service account owns |
| Report.MayReportExactly | cmd/dashboard/component_monitoring_report.go:42-75 | a status may be reported exactly if the first component and sub-component with its slugs exist, the account is a named owner of the one, and the other is configured for this monitor |
| Report.ReportProcessor.Process | cmd/dashboard/component_monitoring_report.go:83-190 | the statuses take effect one after the other up to the first failing lookup, ping, query or validation, and what was done before stays |
| Report.ReportProcessor.ProcessStatus | cmd/dashboard/component_monitoring_report.go:89-186 | the effect of one status: ping, then resolve, create or leave alone |
| Report.StopsExactly | cmd/dashboard/component_monitoring_report.go:96-119 | a status stops its batch exactly if its sub-component is not configured or the ping or the query fails, and then leaves at most its ping |
| Report.BatchStops | cmd/dashboard/component_monitoring_report.go:89-190 | what a batch did before the status that stops it stays, and nothing after it is done |
| Absent.TargetsOfComponent | cmd/dashboard/absent_report.go:80-81 | the two nested loops visit every sub-component of every component, in order |
| Absent.AbsentReportChecker.CheckForAbsentReports | cmd/dashboard/absent_report.go:76-184 | every configured sub-component is checked in turn, whatever happened to those before it |
| Absent.AbsentReportChecker.CheckSubComponent | cmd/dashboard/absent_report.go:81-182 | the effect of one visit: skip, resolve, leave alone or create |
| Users.Handlers.CreateOutage | cmd/dashboard/handlers.go:177-266 | the response and the tables after a user's creation, on every path |
| Users.Handlers.UpdateOutage | cmd/dashboard/handlers.go:269-374 | the response and the tables after a user's PATCH, on every path |
| Users.Handlers.ApplyPatch | cmd/dashboard/handlers.go:330-358 | the field assignments are the field-wise merge, given up on an invalid severity only |
| Users.Handlers.DeleteOutage | cmd/dashboard/handlers.go:423-485 | the response and the tables after a user's delete |
| Users.CreateAnswers | cmd/dashboard/handlers.go:194-261 | every answer to a creation, by the columns the request gives; on any but Done the tables stay |
| Users.PatchAnswers | cmd/dashboard/handlers.go:295-369 | every answer to a PATCH, by the columns the request gives; on any but Done nothing changes |
| Users.DeleteEffect | cmd/dashboard/handlers.go:442-484 | every answer to a delete; on Done the row is gone, the log has one DELETE entry more, with the person and the row, and nothing else changed; otherwise nothing did |
| Users.CreateEffect | cmd/dashboard/handlers.go:235-257 | an accepted creation adds one open-ended row under a fresh identifier with the requested columns, whole seconds and no reasons; a requested end is ignored |
| Users.PatchEffect | cmd/dashboard/handlers.go:330-365 | an accepted PATCH changes one row, in the named columns only, cuts times to whole seconds and keeps the first confirmation time |
| Users.PatchIdempotent | cmd/dashboard/handlers.go:330-365 | sending a PATCH twice gives the same answer and the same row but for its update time |
| Deduplication.ProcessedTame | cmd/dashboard/component_monitoring_report.go:115-183 | a report batch, repeated keys included, opens nothing more under any creator, and any source but the one all monitors share, or leaves at most one open |
| Deduplication.CheckedTame | cmd/dashboard/absent_report.go:121-176 | so does an absent-report check under any source, and any creator but the checker itself |
| Deduplication.PatchedOpens | cmd/dashboard/handlers.go:340-345 | a PATCH opens an outage exactly if that outage had ended and the request clears its end |
| Deduplication.UserCreatedOpens | cmd/dashboard/handlers.go:235-257 | a creation opens an outage exactly under the user's name and the source the request gives |
| Deduplication.NoDuplicates | cmd/dashboard/component_monitoring_report.go:115-183 | over any run the number of open outages per sub-component and key, such as a monitor or the absent source, exceeds max(1, what it was) by at most the number of user requests that open one |
| Deduplication.NoTwoOpen | cmd/dashboard/component_monitoring_report.go:115-183 | in a run from the empty database in which nobody opens outages by hand, two open rows of one sub-component and monitor, or from the absent source, are one |
| Deduplication.SharedNameDuplicates | cmd/dashboard/absent_report.go:16-19 | a late visit adds an outage to whatever a monitor named like the checker has open |
| Namesake.VisitExceeds | cmd/dashboard/absent_report.go:121-176 | a visit leaves more outages open under a key than one and than there were exactly if the key is the checker's name, one is open under it, and the visit opens an absent-report outage |
| Namesake.NamesakeDuplicates | cmd/dashboard/absent_report.go:98-176 | from any state of a run with nothing open, a report under the checker's name and a visit beyond the threshold leave one and then two |
| Namesake.NamesakeRun | cmd/dashboard/absent_report.go:98-176 | one report and one check on the empty database that do so |
| Overlap.OverlapExample | cmd/dashboard/component_monitoring_report.go:96-183 | two overlapping requests on the empty database that leave two outages open |
| Overlap.OverlappingReportsDuplicate | cmd/dashboard/component_monitoring_report.go:96-183 | of two requests that both ping and query before either writes, exactly two unhealthy ones with reasons, with nothing open before, leave more outages open than one and than there were, namely two |
| Overlap.ActedOpens | cmd/dashboard/component_monitoring_report.go:121-183 | what a request writes by what it found earlier: one more open outage exactly if it found none and reports unhealthy with a reason, otherwise none more |
| Activity.ActivityAgrees | pkg/repositories/outage_repository.go:112-154 | the rows without an end are among the active ones, and are all of them exactly if no end lies in the future |
| Activity.EndedStays | pkg/repositories/outage_repository.go:135-154 | over any run, an outage that has ended is changed only by a user's PATCH of it |
| Activity.ResolvedNeverActive | cmd/dashboard/component_monitoring_report.go:131-141 | an outage resolved at t and not patched afterwards is in no active query at any time from t on |
| Activity.WritableRows | pkg/outage/outage_manager.go:99-102 | a stored row passes validation as it stands exactly if its start is not Go's zero time |
| Activity.ResolveAccepted | cmd/dashboard/component_monitoring_report.go:131-141 | with a working database the automatic writers can end a stored row exactly if its start is not Go's zero time |
| Activity.PatchAccepted | cmd/dashboard/handlers.go:330-365 | with a working database, a PATCH of a stored row of a configured sub-component is accepted exactly if the severity it names is known, the start it names or else the stored one is not Go's zero time, and the description it names is not blank |
| Activity.EarlyOutage | cmd/dashboard/handlers.go:235-365 | one nanosecond after Go's zero time: the creation is accepted, the automatic writers cannot end it, a PATCH without a start is refused and one with another start accepted |
| Activity.FrozenRows | pkg/repositories/outage_repository.go:44-46 | truncation invalidates an accepted row exactly if it starts within the first second of Go's time |
| Deadline.CheckerOpens | cmd/dashboard/absent_report.go:98-176 | a visit opens an outage exactly if the ping is missing or older than three times the frequency, none is open, and the database works; and what that outage is |
| Deadline.CheckerResolves | cmd/dashboard/absent_report.go:127-144 | what a punctual visit leaves open, with and without auto-resolve |
| Deadline.AbsentDeadline | cmd/dashboard/absent_report.go:42-149 | unless a ping or a person intervenes, a successful check in (deadline, deadline + gap] leaves an absent-report outage open, and it stays open |
| Deadline.BlamedWasLate | cmd/dashboard/absent_report.go:98-149 | every absent-report outage a run adds goes back to a check at which the ping was missing or older than three times the frequency, or to a user posing as the checker |
| Deadline.TickedDeadline | cmd/dashboard/absent_report.go:42-149 | the two together: with the checker's own schedule the outage is open, after the deadline, within the longest duration of a check and an interval, or twice that duration if it is longer than an interval |
| Deadline.Start | cmd/dashboard/absent_report.go:42-72 | the first check comes after three intervals, and each next one follows within an interval or, if that is longer, the time the check took |
| ComponentStatus.DetermineStatus | cmd/dashboard/handlers.go:650-688 | the severity of a most critical confirmed outage, suspected if none is confirmed, healthy if there is none |
| ComponentStatus.GetComponentStatus | cmd/dashboard/handlers.go:615-634 | healthy, partial or most severe, by the number of names among the active outages |
| ComponentStatus.GetSubComponentStatus | cmd/dashboard/handlers.go:555-558 | the same summary for one sub-component |
| ComponentStatus.DeterminesUnique | cmd/dashboard/handlers.go:650-688 | the order of the outages does not matter |
| ComponentStatus.DeterminesWorst | cmd/dashboard/handlers.go:655-687 | by names: Down if a confirmed outage is Down, else Degraded, else CapacityExhausted, else Suspected, and Suspected also if none is confirmed |
| ComponentStatus.UnconfirmedIrrelevant | cmd/dashboard/handlers.go:655-680 | once an outage is confirmed, unconfirmed ones never change what `determineStatusFromSeverity` returns |
| ComponentStatus.UnconfirmedOnPage | cmd/dashboard/handlers.go:622-634 | on the page of a component they leave the status alone exactly if they leave alone whether fewer sub-components are named than configured |
| ComponentStatus.UnconfirmedExample | cmd/dashboard/handlers.go:622-680 | an unconfirmed outage of the other of two sub-components that turns partial into degraded |
| ComponentStatus.StatusComposes | cmd/dashboard/handlers.go:615-688 | with outages of configured sub-components only: healthy iff all are, partial iff some but not all have an active outage, else the most severe sub-component status |
| ComponentStatus.HealthyPage | cmd/dashboard/handlers.go:616-629 | a component is shown healthy exactly if every outage of it has an end that is not in the future |
| ComponentStatus.PartialExactly | cmd/dashboard/handlers.go:622-634 | when partial is shown, with unconfigured names counted |
| ComponentStatus.StaleNamesMislead | cmd/dashboard/handlers.go:622-634 | the two cases, and the only ones, in which partial does not mean some but not all configured sub-components |
| ComponentStatus.StaleExample | cmd/dashboard/handlers.go:622-634 | partial with no configured sub-component affected, and down with one of two |
| Ordering.AscendingUnique | cmd/component-monitor/probe-orchestrator.go:190-196 | a set of elements has one ascending arrangement |
| Ordering.SortSlice | cmd/component-monitor/probe-orchestrator.go:190-196 | what callers may assume of sort.Slice and sort.Strings |
| Merge.SplitGroup | cmd/component-monitor/probe-orchestrator.go:204-213 | the verdicts of a group in arrival order, and whether a probe failed |
| Merge.Summarise | cmd/component-monitor/probe-orchestrator.go:234-246 | the most critical status and the unhealthy verdicts' reasons in arrival order |
| Merge.MergeGroup | cmd/component-monitor/probe-orchestrator.go:203-258 | omitted exactly if no probe reached a verdict or one failed and the others found it healthy; otherwise the entry represents the group |
| Merge.MergeStatuses | cmd/component-monitor/probe-orchestrator.go:164-199 | the report is strictly sorted and has one entry for each sub-component that is not omitted |
| Merge.ReportUnique | cmd/component-monitor/probe-orchestrator.go:164-199 | there is one such report: neither map order, nor the sorting algorithm, nor reordering results across sub-components can be seen in it |
| Merge.OmittedExactly | cmd/component-monitor/probe-orchestrator.go:215-232 | in terms of results: a group is kept exactly if a probe reached a verdict, and none failed or some verdict is not healthy |
| Merge.EntryExactly | cmd/component-monitor/probe-orchestrator.go:164-232 | so the report has an entry for a sub-component exactly then |
| Merge.EntryStatus | cmd/component-monitor/probe-orchestrator.go:234-256 | by names: Down if some probe said so, else Degraded, else CapacityExhausted, else Suspected, else Healthy |
| Merge.EntryReasons | cmd/component-monitor/probe-orchestrator.go:234-256 | an entry that is not healthy has the sub-component's reasons, a healthy one none |
| Merge.ReasonsInOrder | cmd/component-monitor/probe-orchestrator.go:237-240 | those are the reasons of unhealthy verdicts, in the order in which the results arrived |
| Merge.EntryOrder | cmd/component-monitor/probe-orchestrator.go:190-196 | entries ascend by component and then by sub-component |
| EndToEnd.ConfinedElsewhere | cmd/dashboard/component_monitoring_report.go:89-187 | what stays for sub-components outside a batch |
| EndToEnd.ProcessedOneOutcome | cmd/dashboard/component_monitoring_report.go:89-186 | one status changes only its own monitor's outages of its sub-component, in one of three ways |
| EndToEnd.BatchOutcome | cmd/dashboard/component_monitoring_report.go:83-190 | so does every status of a batch, independently of the others |
| EndToEnd.UnhealthyIsOpen | cmd/component-monitor/probe-orchestrator.go:203-257 | an unhealthy probe result with a reason is an open outage of the monitor after the report: the old one, or one new with the maximum severity and all reasons |
| EndToEnd.UnhealthyRow | cmd/dashboard/component_monitoring_report.go:142-183 | in terms of rows: after the report there is an open row of that sub-component and monitor; a new one has the worst severity that a probe reached, by names, and all reasons in order |
| EndToEnd.ErroredIsUntouched | cmd/component-monitor/probe-orchestrator.go:215-232 | a sub-component with a failed probe and none but healthy verdicts, or without results, is not in the report, and keeps its rows and its ping |
| EndToEnd.HealthyIsResolved | cmd/dashboard/component_monitoring_report.go:121-141 | a sub-component with results, all healthy and none failed, has under auto-resolve no open row of the monitor left, except those that do not validate |
| EndToEnd.UnclearIsUntouched | cmd/component-monitor/probe-orchestrator.go:215-232 | failed probes, alone or beside healthy ones, leave outages and ping; other creators' outages never change |
| Builds.CanonicalValueUnique | cmd/component-monitor/junit-prober.go:466-473 | decimal identifiers without sign and leading zeros are equal if their values are |
| Builds.ParseExactly | cmd/component-monitor/junit-prober.go:467-468 | digits are read as their decimal value, with a sign or without |
| Builds.DecimalDigits | cmd/component-monitor/junit-prober.go:467-468 | the decimal value, digit by digit |
| Builds.GreaterOrdersExactly | cmd/component-monitor/junit-prober.go:462-473 | the comparison is a strict total order of some identifiers exactly if they are comparable: no two integers of one value, and no other identifier, as text, between two integers whose texts stand the wrong way round |
| Builds.CanonicalComparable | cmd/component-monitor/junit-prober.go:466-473 | decimal identifiers without sign and leading zeros are comparable, and so are identifiers none of which is an integer |
| Builds.GreaterOrders | cmd/component-monitor/junit-prober.go:462-473 | on comparable identifiers, and any selection of them, the comparison is a strict total order |
| Builds.GreaterIsNoOrder | cmd/component-monitor/junit-prober.go:466-473 | on others it can be cyclic or leave identifiers unordered |
| Builds.Unordered | cmd/component-monitor/junit-prober.go:466-473 | two identifiers are unordered exactly if both are integers of one value |
| Builds.SortedCandidates | cmd/component-monitor/junit-prober.go:327-336 | the listing and the latest build without duplicates, newest first |
| Builds.ResolveBuildIds | cmd/component-monitor/junit-prober.go:319-371 | success exactly if every build could be looked up, only the newest is unfinished and some is finished; the result is then the N largest finished ones, newest first |
| Builds.WindowUnique | cmd/component-monitor/junit-prober.go:332-370 | there is one such window, whatever the map order |
| Builds.FindPreviousBuildId | cmd/component-monitor/junit-prober.go:373-393 | the greatest candidate strictly below the given build, if there is one |
| Builds.HistoryIsLeft | cmd/component-monitor/junit-prober.go:243-252 | taking the unfinished latest build out of the window leaves another build |
| Signatures.Aggregate | cmd/component-monitor/junit-prober.go:515-537 | the sum of the declared counts, and each failing name once in ascending order, whatever the map order |
| Signatures.TotalTestsAdds | cmd/component-monitor/junit-prober.go:517-518 | the total is the sum of the declared counts |
| Signatures.SignatureText | cmd/component-monitor/junit-prober.go:546-555 | the texts of both forms of a signature |
| Text.SplitOfJoin | cmd/component-monitor/junit-prober.go:554 | splitting a joined list gives the pieces of its names |
| Text.JoinOfSplit | frontend/src/utils/slugify.ts:22-25 | joining what was split gives the text back |
| Text.JoinInjective | cmd/component-monitor/junit-prober.go:554 | two lists are joined to one text exactly if their names have the same pieces |
| Signatures.SameSignature | cmd/component-monitor/junit-prober.go:546-555 | two failed runs share a signature exactly if both have no tests, or both some and the same pieces of failing names |
| Signatures.SameCause | cmd/component-monitor/junit-prober.go:544-555 | without commas in names that is having the same set of failing tests |
| Signatures.CommaConfuses | cmd/component-monitor/junit-prober.go:554 | with a comma it is not |
| JUnit.ValidateHistory | cmd/component-monitor/main.go:130-145 | accepted exactly if the history is not negative and, beyond one run, 1 <= threshold <= history |
| JUnit.NewSettings | cmd/component-monitor/junit-prober.go:87-92 | accepted settings become 1 <= threshold <= history |
| JUnit.HighestCount | cmd/component-monitor/junit-prober.go:285-292 | the largest group and, of several, the signature that sorts first, whatever the map order |
| JUnit.TopUnique | cmd/component-monitor/junit-prober.go:285-292 | there is one such group |
| JUnit.EvaluateHistory | cmd/component-monitor/junit-prober.go:264-316 | an error exactly if a build cannot be read; otherwise unhealthy exactly if enough runs share a signature, reporting the largest group |
| JUnit.HistoryRule | cmd/component-monitor/junit-prober.go:266-303 | for names without commas: exactly if enough runs fail with one set of tests, or enough run no tests |
| JUnit.ReportedCause | cmd/component-monitor/junit-prober.go:304-307 | the reported count belongs to a cause, and no cause has more runs |
| JUnit.EvaluateSingle | cmd/component-monitor/junit-prober.go:595-617 | the verdict on a single run |
| JUnit.SingleAgrees | cmd/component-monitor/junit-prober.go:254-262 | it is the history rule for one run and threshold one |
| JUnit.ProbeRule | cmd/component-monitor/junit-prober.go:254-303 | the rule of the probe, for names without commas: bad exactly if enough of the judged builds fail with one set of tests, or enough of them run none |
| JUnit.BadExactly | cmd/component-monitor/junit-prober.go:254-303 | in terms of the files: bad exactly if the judged builds that declare no tests, or those that do and fail in one set of tests, are enough |
| JUnit.StaleLatest | cmd/component-monitor/junit-prober.go:153-168 | the latest build alone is reported stale exactly if it is older than the limit |
| JUnit.LatestDecides | cmd/component-monitor/junit-prober.go:194-262 | with one history run and a finished, fresh latest build the probe is bad exactly if that build declares no tests or a named test of it fails |
| JUnit.PreviousDecides | cmd/component-monitor/junit-prober.go:204-262 | while it is unfinished, exactly if the greatest listed build below it does |
| JUnit.ResultTells | cmd/component-monitor/junit-prober.go:126-135 | the result is an error exactly for an error, and otherwise healthy or the configured severity, degraded by default, with one reason |
| JUnit.Probe | cmd/component-monitor/junit-prober.go:182-317 | a verdict comes from a stale build, or from judging the base build or the window without the unfinished latest one; an error from a build that is missing or unreadable on the way there |
| JUnit.ErrorExactly | cmd/component-monitor/junit-prober.go:182-317 | on comparable identifiers the probe reports an error exactly if something on its way fails: the latest build's name, age or completion, the fallback, the listing, an older build that is not finished, or a chosen build's file |
| JUnit.VerdictUnique | cmd/component-monitor/junit-prober.go:182-317 | on comparable identifiers one world has one verdict, whatever the map order |
| JUnit.HistoryNeverEmpty | cmd/component-monitor/junit-prober.go:243-256 | on comparable identifiers a verdict is never passed on an empty history |
| JUnit.EmptyHistory | cmd/component-monitor/junit-prober.go:243-256 | on others it can be: "7" and "07", which the sort may put in either order |
| JUnit.BadIsOpen | cmd/component-monitor/junit-prober.go:308-316 | a bad history is an open outage once the cycle's report has been processed |
| ResultChannel.CollectProbeResults | cmd/component-monitor/probe-orchestrator.go:95-126 | at most one result per prober, in order of reception, fewer exactly if the context or the timeout came first |
| ResultChannel.ResultsConserved | cmd/component-monitor/probe-orchestrator.go:52-143 | over every interleaving, the sends are the disjoint union of collected, discarded, abandoned and still waiting ones, at most one per goroutine |
| ResultChannel.CyclesBounded | cmd/component-monitor/probe-orchestrator.go:95-143 | a cycle collects at most one result per prober, fewer only on timeout or cancellation, and only results offered during it |
| ResultChannel.NothingBeforeCancel | cmd/component-monitor/probe-orchestrator.go:100-122 | before the context is cancelled nothing is abandoned, no cycle ends as cancelled and the loop does not end; only selective probers abandon |
| ResultChannel.AtMostOneMore | cmd/component-monitor/probe-orchestrator.go:53-75 | after the cancellation at most the cycle under way is completed |
| ResultChannel.LateResult | cmd/component-monitor/probe-orchestrator.go:88-143 | a result of an earlier cycle's probe can be collected in the cycle that starts now, or a later one, exactly if such a probe is still running when the drain ends |
| ResultChannel.DrainReached | cmd/component-monitor/probe-orchestrator.go:52-143 | every state of a run is as that lemma asks, and a first cycle that times out leaves its probes running |
| PageCache.ExternalPageCache.Get | cmd/dashboard/external_page_handler.go:49-78 | fields and result of an undisturbed call |
| PageCache.AloneIsGet | cmd/dashboard/external_page_handler.go:49-78 | the atomic steps, taken by one thread in a row, are that call |
| PageCache.RunInv | cmd/dashboard/external_page_handler.go:49-78 | the invariant of lock, fields, history and callers over every interleaving |
| PageCache.CacheGuarantees | cmd/dashboard/external_page_handler.go:49-78 | stores follow a non-empty one no sooner than the time to live, fetches exclude each other, and a returned page was fetched and is no older than the last store before the call |
| PageCache.AnswerExplained | cmd/dashboard/external_page_handler.go:51-77 | every answered call goes back to a step of its own at which its page was the last one stored, and younger than the time to live unless the call's own fetch had failed |
| PageCache.FailureStep | cmd/dashboard/external_page_handler.go:66-73 | a call fails exactly if its own fetch fails while nothing non-empty is cached |
| PageCache.FailureExplained | cmd/dashboard/external_page_handler.go:66-73 | so every failed call of a run goes back to such a fetch |
| Reload.Manager.constructor | pkg/config/manager.go:33-54 | the initial configuration and digest, empty if the second read fails |
| Reload.Manager.ReloadIfChanged | pkg/config/manager.go:78-126 | one poll with its two reads, and the callbacks it runs |
| Reload.Manager.OnUpdate | pkg/config/manager.go:129-133 | a callback is added behind the others |
| Reload.ReloadFollowsFile | pkg/config/manager.go:78-126 | over every run with a stable file, the configuration is the load of the last accepted content, and each callback registered at an acceptance runs once, in order; without an initial digest the first loadable file is accepted, changed or not |
| Reload.FailureRetried | pkg/config/manager.go:102-111 | after any number of rejected files a poll acts as if they had not been there |
| Reload.TornReads | pkg/config/manager.go:80-114 | a manager stops going by one content exactly if a poll accepts two reads that load differently |
| Reload.TornExample | pkg/config/manager.go:80-114 | a poll that hashes one file and loads another, after which the manager goes by neither |
| Reload.StablePollSettles | pkg/config/manager.go:95-114 | a later stable poll repairs it, except exactly if the file is back at the digest remembered and something else was loaded |
| Reload.Monitor.StartOrchestrator | cmd/component-monitor/main.go:317-327 | the new orchestrator first, then the old one cancelled; nothing on a failed start |
| Reload.ProcessRun | cmd/component-monitor/main.go:265-331 | in every run exactly one orchestrator is uncancelled until the interrupt, the current one, and none from then on |
| Reload.RunningSince | cmd/component-monitor/main.go:310-331 | the running configuration was the manager's at some moment since the launch, and every change accepted since was missed |
| Reload.InStepUnlessMissed | cmd/component-monitor/main.go:310-331 | what runs is what the manager holds unless a change came before the registration or could not be started |
| Reload.LeavesStep | cmd/component-monitor/main.go:310-331 | a step ends the agreement of running and held configuration exactly if it misses a change to another configuration than the running one |
| Reload.ReturnsToStep | cmd/component-monitor/main.go:310-331 | a step restores it exactly if a change is accepted that reaches the orchestrator or goes back to the running configuration |
| Reload.UpdateMissed | cmd/component-monitor/main.go:276-331 | a change between launch and registration is missed |
| Slug.GoAgrees | pkg/utils/slugify.go:13-29 | Go's and TypeScript's functions agree |
| Slug.SlugIsWords | frontend/src/utils/slugify.ts:8-13 | both give the words of the text in lower case, joined by single hyphens |
| Slug.SlugIsNormal | frontend/src/utils/slugify.ts:8-13 | a slug is in normal form, and exactly the normal forms are their own slugs |
| Slug.SlugifyTwice | pkg/utils/slugify.go:13-29 | slugify is idempotent |
| Slug.SlugOfDeslug | frontend/src/utils/slugify.ts:21-26 | deslugifying never changes the slug, so slugify undoes it exactly on normal forms |
| Slug.CaseTable | frontend/src/utils/slugify.ts:10-24 | the two cases of a letter have one place in the alphabet |
| Slug.SlugAlphabet | pkg/utils/slugify.go:13-29 | the slugs are the texts of lower-case letters, digits and single inner hyphens |
| Slug.DeslugifyAt | frontend/src/utils/slugify.ts:21-26 | deslugify keeps the length, turns hyphens into spaces and capitalises the first letter of every word |
| UnitName.EscapeUnitName | cmd/component-monitor/systemd-prober.go:49-59 | the loop computes the escape |
| UnitName.EscapeReversible | cmd/component-monitor/systemd-prober.go:49-59 | a decoder finds the unit of every escaped name and accepts nothing else |
| UnitName.EscapeInjective | cmd/component-monitor/systemd-prober.go:49-59 | two units never share a path |
| UnitName.EscapedForm | cmd/component-monitor/systemd-prober.go:49-59 | output in the alphabet of the D-Bus Specification, section "Valid Object Paths", two characters longer per escaped byte, and empty for the empty unit only |
| UnitName.EscapeTable | cmd/component-monitor/systemd-prober.go:51-57 | which bytes stay and what becomes of the others |

## Left out

- Overlapping requests: runs serialise whole requests, reports and checks. A report's query and its
  creation are not one transaction in the original; what two overlapping reports do is the subject of
  `overlap` alone.
- SQL and GORM: single operations and transactions commit or roll back as a unit, an error can strike at any
  statement, and the order of a result set is arbitrary. Soft-deleted rows leave the table of the model.
- `created_at`, `deleted_at`, Slack threads and the JSON text of audit documents: a document is the row
  with its reasons.
- Store.OutageStore.UpsertPing: the upsert is atomic, without its branch for a lost race
  (`pkg/repositories/component_ping_repository.go:45`); a failing upsert is part of a request's environment.
- HTTP routing, decoding, authentication, ownership checks for users, Slack, logging, metrics and the
  database schema.
- Absent.AbsentReportChecker.CheckSubComponent: the description keeps its fixed text only, without the duration
  that follows it.
- The wording of JUnit reasons: the model keeps the data that the wording is made of.
- Overflow of Go's 64-bit durations, such as three times a frequency of a century.
- A report is validated under one configuration; while it is processed each status may see another one.
- Deadline.AbsentDeadline: is, like `TickedDeadline`, stated for one frequency of the sub-component throughout the stretch and for a
  clock that does not run backwards.
- Deadline.Start: the body of a check is its duration only, and cancellation just ends the sequence.
- EndToEnd.UnhealthyIsOpen: is stated for configured sub-components and a working database; without them the
  effect of a batch is the function that `ReportProcessor.Process` computes.
- ComponentStatus.StatusComposes: all queries are taken at one instant, while the original reads the clock in
  each.
- Ordering.SortSlice: the sorting algorithms of Go are represented by a stable one; callers use only the
  documented result, which says nothing when the comparison is no order.
- JUnit.HistoryNeverEmpty: is stated for comparable identifiers; `EmptyHistory` shows why.
- JUnit.ErrorExactly: is, like `VerdictUnique`, stated for identifiers that the sort can order; for others the
  library's sort promises nothing.
- JUnit.Probe: URLs, XML, paging of the listing and the 4 MiB limit of a body are not part of this model;
  every build's files are read as given by an oracle, the latest build's completion and the listing
  twice.
- PageCache.CacheGuarantees: the state machine is on values; the class `ExternalPageCache` has the code of one
  call, and the fetch itself is an oracle.
- ResultChannel.ResultsConserved: the channel and the goroutines are a state machine on values; sending the report
  and sleeping are one phase.
- Reload.ReloadFollowsFile: the digest is taken to be injective, and polls and registrations are atomic.
- Slug.SlugIsWords: is about ASCII letters; lower-casing of other letters differs between Go and JavaScript.
- UnitName.EscapeUnitName: models the function shown, not systemd's own escaping of leading digits and empty names.
- Prometheus, HTTP and systemd probers beyond the unit escape, default severities and steps, and option
  parsing: easy members.
