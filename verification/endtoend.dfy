/** From probe results to open outages: a cycle's merged report, processed by the dashboard. */
module EndToEnd {
  import opened Base
  import opened Models
  import opened Configuration
  import opened Store
  import opened Audit
  import opened Effects
  import opened Report
  import opened Merge
  import opened Runs

  /** The monitor's own outages of the reported sub-components. */
  predicate Touches(o: Outage, keys: set<Key>, monitor: string) {
    o.createdBy == monitor && (o.component, o.subComponent) in keys
  }

  /** `a` and `b` differ at most in the monitor's own outages of `keys`, in the pings of `keys`, and in the
      log. */
  predicate Confined(a: Db, b: Db, keys: set<Key>, monitor: string) {
    && a.nextId <= b.nextId
    && (forall id | id in a.rows && !Touches(a.rows[id], keys, monitor) :: id in b.rows && b.rows[id] == a.rows[id])
    && (forall id | id in b.rows && !Touches(b.rows[id], keys, monitor) :: id in a.rows && a.rows[id] == b.rows[id])
    && (forall k | k in a.pings && k !in keys :: k in b.pings && b.pings[k] == a.pings[k])
    && (forall k | k in b.pings && k !in keys :: k in a.pings)
    && (forall id | id in a.reasons :: id in b.reasons && b.reasons[id] == a.reasons[id])
  }

  lemma ConfinedCompose(a: Db, b: Db, c: Db, keys: set<Key>, more: set<Key>, monitor: string)
    requires Confined(a, b, keys, monitor) && Confined(b, c, more, monitor)
    ensures Confined(a, c, keys + more, monitor)
  {
  }

  function OpenBy(db: Db, key: Key, monitor: string): set<nat> {
    Open(db, key.0, key.1, CreatedBy(monitor))
  }

  /** What confinement means for a sub-component outside the batch. */
  lemma ConfinedElsewhere(a: Db, b: Db, keys: set<Key>, monitor: string, key: Key)
    requires Confined(a, b, keys, monitor) && key !in keys
    ensures OpenBy(b, key, monitor) == OpenBy(a, key, monitor)
    ensures forall id | id in OpenBy(a, key, monitor) :: b.rows[id] == a.rows[id]
    ensures key in a.pings <==> key in b.pings
    ensures key in a.pings ==> b.pings[key] == a.pings[key]
  {
  }

  /** The circumstances of a status that is handled to the end: its sub-component is configured, the
      clock is past Go's zero time, and the database works. */
  predicate Handled(st: ReportStatus, r: Reading) {
    Lookup(r.cfg, st.component, st.subComponent).Some? && NoFaults(r.env) && r.env.now != 0
  }

  predicate AutoResolves(st: ReportStatus, r: Reading) {
    var sub := Lookup(r.cfg, st.component, st.subComponent);
    sub.Some? && sub.value.monitoring.Some? && sub.value.monitoring.value.autoResolve
  }

  /** The one outage a status opens: stamped, carrying the reported severity and reasons, and confirmed
      at once unless the sub-component asks for confirmation. */
  predicate Opens(a: Db, b: Db, st: ReportStatus, r: Reading, monitor: string, id: nat) {
    && OpenBy(b, KeyOf(st), monitor) == {id}
    && a.nextId <= id
    && ReasonsOf(b, id) == st.reasons
    && b.rows[id].severity == ToSeverity(st.status)
    && b.rows[id].start == Truncate(r.env.now)
    && b.rows[id].discoveredFrom == COMPONENT_MONITOR
    && b.rows[id].description == DETECTED
    && var sub := Lookup(r.cfg, st.component, st.subComponent);
       b.rows[id].confirmedAt == if sub.Some? && sub.value.requiresConfirmation then None else Some(Truncate(r.env.now))
  }

  /** What handling a status does to the monitor's open outages of its sub-component. Rows that do
      not validate cannot be ended; stored rows validate unless their start is Go's zero time. */
  ghost predicate Outcome(a: Db, b: Db, st: ReportStatus, r: Reading, monitor: string) {
    var before, after := OpenBy(a, KeyOf(st), monitor), OpenBy(b, KeyOf(st), monitor);
    && KeyOf(st) in b.pings
    && b.pings[KeyOf(st)] == r.env.now
    && if st.status == StatusHealthy then
         after == if AutoResolves(st, r) then (set id | id in before && !Valid(a.rows[id])) else before
       else if before != {} || StatusLevel(st.status) == 0 || st.reasons == [] then
         after == before
       else
         exists id :: Opens(a, b, st, r, monitor, id)
  }

  lemma EndsRowsConfined(a: Db, b: Db, key: Key, monitor: string, env: Env)
    requires EndsRows(a, b, OpenBy(a, key, monitor), env) && b.reasons == a.reasons
    ensures Confined(a, b, {key}, monitor)
    ensures NoFaults(env) ==> OpenBy(b, key, monitor) == set id | id in OpenBy(a, key, monitor) && !Valid(a.rows[id])
  {
    hide Valid;
  }

  lemma ResolvedConfined(db: Db, key: Key, monitor: string, env: Env)
    ensures var after := Resolved(db, QueryOpen(db, key.0, key.1, CreatedBy(monitor), env.order), monitor, env);
            && Confined(db, after, {key}, monitor)
            && after.pings == db.pings
            && (NoFaults(env) ==>
                  OpenBy(after, key, monitor) == set id | id in OpenBy(db, key, monitor) && !Valid(db.rows[id]))
  {
    var found := QueryOpen(db, key.0, key.1, CreatedBy(monitor), env.order);
    ResolvedOpen(db, key.0, key.1, CreatedBy(monitor), monitor, env);
    ResolvedReasons(db, found, monitor, env);
    hide Resolved, QueryOpen, Valid;
    EndsRowsConfined(db, Resolved(db, found, monitor, env), key, monitor, env);
  }

  lemma {:induction false} ResolvedReasons(db: Db, found: seq<Found>, user: string, env: Env)
    ensures Resolved(db, found, user, env).reasons == db.reasons
    decreases |found|
  {
    if found != [] {
      var id := found[0].id;
      var next := Updated(db, id, found[0].row.(end := Some(env.now)), user, env.now, FaultOf(env, id)).0;
      ResolvedReasons(next, found[1..], user, env);
    }
  }

  lemma PingedConfined(db: Db, key: Key, now: Time, monitor: string)
    ensures Confined(db, Pinged(db, key.0, key.1, now), {key}, monitor)
    ensures RowsOk(db) ==> RowsOk(Pinged(db, key.0, key.1, now))
    ensures OpenBy(Pinged(db, key.0, key.1, now), key, monitor) == OpenBy(db, key, monitor)
  {
  }

  lemma InsertedConfined(db: Db, row: Outage, reasons: seq<Reason>, user: string)
    requires RowsOk(db)
    ensures var after, key := Inserted(db, row, reasons, user), (row.component, row.subComponent);
            && Confined(db, after, {key}, row.createdBy)
            && after.pings == db.pings
            && (OpenEnded(row) ==> OpenBy(after, key, row.createdBy) == OpenBy(db, key, row.createdBy) + {db.nextId})
  {
  }

  lemma InsertedOpens(a: Db, db: Db, st: ReportStatus, r: Reading, monitor: string)
    requires RowsOk(db) && Lookup(r.cfg, st.component, st.subComponent).Some?
    requires a.nextId <= db.nextId && OpenBy(db, KeyOf(st), monitor) == {}
    ensures var sub := Lookup(r.cfg, st.component, st.subComponent).value;
            var row := Stamped(MonitorOutage(st, monitor, r.env.now, sub.requiresConfirmation), r.env.now);
            var after := Inserted(db, row, st.reasons, monitor);
            && Confined(db, after, {KeyOf(st)}, monitor)
            && after.pings == db.pings
            && Opens(a, after, st, r, monitor, db.nextId)
  {
    var sub := Lookup(r.cfg, st.component, st.subComponent).value;
    var row := Stamped(MonitorOutage(st, monitor, r.env.now, sub.requiresConfirmation), r.env.now);
    InsertedConfined(db, row, st.reasons, monitor);
    hide Confined, RowsOk, Open, Lookup;
  }

  predicate Resolves(st: ReportStatus, r: Reading) {
    st.status == StatusHealthy && AutoResolves(st, r)
  }

  predicate Creates(db: Db, st: ReportStatus, monitor: string) {
    && st.status != StatusHealthy
    && StatusLevel(st.status) > 0
    && OpenBy(db, KeyOf(st), monitor) == {}
    && st.reasons != []
  }

  function OwnOpen(db: Db, st: ReportStatus, r: Reading, monitor: string): seq<Found> {
    QueryOpen(db, st.component, st.subComponent, CreatedBy(monitor), r.env.order)
  }

  function NewRow(st: ReportStatus, r: Reading, monitor: string, sub: SubComponent): Outage {
    Stamped(MonitorOutage(st, monitor, r.env.now, sub.requiresConfirmation), r.env.now)
  }

  function AfterPing(db: Db, st: ReportStatus, r: Reading): Db {
    Pinged(db, st.component, st.subComponent, r.env.now)
  }

  /** The status ends its outages, or opens one, or leaves them as they are. */
  lemma ProcessedOneCases(db: Db, monitor: string, st: ReportStatus, r: Reading)
    requires Handled(st, r) && monitor != ""
    ensures var (after, ok) := ProcessedOne(db, monitor, st, r);
            var pinged := AfterPing(db, st, r);
            var sub := Lookup(r.cfg, st.component, st.subComponent);
            && ok
            && after == if Resolves(st, r) then
                          Resolved(pinged, OwnOpen(pinged, st, r, monitor), monitor, r.env)
                        else if Creates(db, st, monitor) then
                          Inserted(pinged, NewRow(st, r, monitor, sub.value), st.reasons, monitor)
                        else
                          pinged
  {
    var pinged := AfterPing(db, st, r);
    assert OpenBy(pinged, KeyOf(st), monitor) == OpenBy(db, KeyOf(st), monitor);
    QueryLoads(pinged, st.component, st.subComponent, CreatedBy(monitor), r.env.order);
    DetectedIsText();
    hide Resolved, QueryOpen, Blank, Lookup, Inserted, Open, Pinged, Stamped;
  }

  lemma ResolveOutcome(db: Db, monitor: string, st: ReportStatus, r: Reading)
    requires Resolves(st, r) && NoFaults(r.env)
    ensures var pinged := AfterPing(db, st, r);
            var after := Resolved(pinged, OwnOpen(pinged, st, r, monitor), monitor, r.env);
            Confined(pinged, after, {KeyOf(st)}, monitor) && Outcome(db, after, st, r, monitor)
  {
    var pinged := AfterPing(db, st, r);
    PingedConfined(db, KeyOf(st), r.env.now, monitor);
    ResolvedConfined(pinged, KeyOf(st), monitor, r.env);
    assert pinged.rows == db.rows && pinged.pings[KeyOf(st)] == r.env.now;
    hide Resolved, QueryOpen, Confined, AfterPing, Open, Valid;
  }

  lemma CreateOutcome(db: Db, monitor: string, st: ReportStatus, r: Reading)
    requires RowsOk(db) && Handled(st, r) && Creates(db, st, monitor)
    ensures var pinged := AfterPing(db, st, r);
            var sub := Lookup(r.cfg, st.component, st.subComponent).value;
            var after := Inserted(pinged, NewRow(st, r, monitor, sub), st.reasons, monitor);
            Confined(pinged, after, {KeyOf(st)}, monitor) && Outcome(db, after, st, r, monitor)
  {
    var pinged := AfterPing(db, st, r);
    PingedConfined(db, KeyOf(st), r.env.now, monitor);
    assert pinged.pings[KeyOf(st)] == r.env.now && pinged.nextId == db.nextId;
    hide Lookup, Confined, AfterPing, Open, Valid, RowsOk;
    InsertedOpens(db, pinged, st, r, monitor);
    hide Inserted, Stamped, MonitorOutage, Opens;
  }

  lemma PingOutcome(db: Db, monitor: string, st: ReportStatus, r: Reading)
    requires !Resolves(st, r) && !Creates(db, st, monitor)
    ensures Outcome(db, AfterPing(db, st, r), st, r, monitor)
  {
    PingedConfined(db, KeyOf(st), r.env.now, monitor);
  }

  /** One status: everything outside its own outages stays, and they change as `Outcome` says. */
  lemma ProcessedOneOutcome(db: Db, monitor: string, st: ReportStatus, r: Reading)
    requires RowsOk(db) && Handled(st, r) && monitor != ""
    ensures var (after, ok) := ProcessedOne(db, monitor, st, r);
            ok && Confined(db, after, {KeyOf(st)}, monitor) && Outcome(db, after, st, r, monitor)
  {
    var pinged, after := AfterPing(db, st, r), ProcessedOne(db, monitor, st, r).0;
    ProcessedOneCases(db, monitor, st, r);
    PingedConfined(db, KeyOf(st), r.env.now, monitor);
    hide ProcessedOne, Outcome, Confined, Pinged, Resolved, QueryOpen, Inserted, RowsOk, Stamped, MonitorOutage, Lookup;
    if Resolves(st, r) {
      ResolveOutcome(db, monitor, st, r);
    } else if Creates(db, st, monitor) {
      CreateOutcome(db, monitor, st, r);
    } else {
      PingOutcome(db, monitor, st, r);
    }
    if after != pinged {
      ConfinedCompose(db, pinged, after, {KeyOf(st)}, {KeyOf(st)}, monitor);
      assert {KeyOf(st)} + {KeyOf(st)} == {KeyOf(st)};
    }
  }

  // ---------------------------------------------------------------- a whole report

  function KeysFrom(statuses: seq<ReportStatus>, i: nat): set<Key> {
    set j | i <= j < |statuses| :: KeyOf(statuses[j])
  }

  lemma KeysFromStep(statuses: seq<ReportStatus>, i: nat)
    requires i < |statuses| && DistinctKeys(statuses)
    ensures KeysFrom(statuses, i) == {KeyOf(statuses[i])} + KeysFrom(statuses, i + 1)
    ensures KeyOf(statuses[i]) !in KeysFrom(statuses, i + 1)
    ensures forall j | i < j < |statuses| :: KeyOf(statuses[j]) !in {KeyOf(statuses[i])}
  {
  }

  predicate AllHandled(statuses: seq<ReportStatus>, readings: seq<Reading>)
    requires |readings| == |statuses|
  {
    forall i | 0 <= i < |statuses| :: Handled(statuses[i], readings[i])
  }

  lemma OutcomeStays(a: Db, b: Db, c: Db, st: ReportStatus, r: Reading, monitor: string, keys: set<Key>)
    requires Outcome(a, b, st, r, monitor) && Confined(b, c, keys, monitor) && KeyOf(st) !in keys
    ensures Outcome(a, c, st, r, monitor)
  {
    ConfinedElsewhere(b, c, keys, monitor, KeyOf(st));
    var before, after := OpenBy(a, KeyOf(st), monitor), OpenBy(b, KeyOf(st), monitor);
    if Creates(a, st, monitor) {
      var id :| Opens(a, b, st, r, monitor, id);
      assert id in after;
      assert Opens(a, c, st, r, monitor, id);
    }
    hide Confined, Valid, AutoResolves, Opens, Open;
  }

  lemma OutcomeAnticipated(a: Db, b: Db, c: Db, st: ReportStatus, r: Reading, monitor: string, keys: set<Key>)
    requires Confined(a, b, keys, monitor) && KeyOf(st) !in keys && Outcome(b, c, st, r, monitor)
    ensures Outcome(a, c, st, r, monitor)
  {
    ConfinedElsewhere(a, b, keys, monitor, KeyOf(st));
    assert a.nextId <= b.nextId;
    hide Confined, Valid, AutoResolves, Open;
    if Creates(b, st, monitor) {
      var id :| Opens(b, c, st, r, monitor, id);
      assert Opens(a, c, st, r, monitor, id);
    }
  }

  /** The outcomes of one status and of those after it, put together. */
  lemma BatchJoined(db: Db, next: Db, after: Db, statuses: seq<ReportStatus>, readings: seq<Reading>, i: nat,
                    monitor: string)
    requires i < |statuses| == |readings| && DistinctKeys(statuses)
    requires Confined(db, next, {KeyOf(statuses[i])}, monitor) && Outcome(db, next, statuses[i], readings[i], monitor)
    requires Confined(next, after, KeysFrom(statuses, i + 1), monitor)
    requires forall j | i < j < |statuses| :: Outcome(next, after, statuses[j], readings[j], monitor)
    ensures Confined(db, after, KeysFrom(statuses, i), monitor)
    ensures forall j | i <= j < |statuses| :: Outcome(db, after, statuses[j], readings[j], monitor)
  {
    var st := statuses[i];
    KeysFromStep(statuses, i);
    hide KeysFrom, DistinctKeys, Confined, Outcome;
    ConfinedCompose(db, next, after, {KeyOf(st)}, KeysFrom(statuses, i + 1), monitor);
    OutcomeStays(db, next, after, st, readings[i], monitor, KeysFrom(statuses, i + 1));
    forall j | i < j < |statuses| ensures Outcome(db, after, statuses[j], readings[j], monitor) {
      OutcomeAnticipated(db, next, after, statuses[j], readings[j], monitor, {KeyOf(st)});
    }
  }

  lemma {:induction false} BatchOutcome(db: Db, monitor: string, statuses: seq<ReportStatus>, readings: seq<Reading>,
                                        i: nat)
    requires Inv(db) && monitor != "" && i <= |statuses|
    requires |readings| == |statuses| && DistinctKeys(statuses) && AllHandled(statuses, readings)
    ensures var (after, ok) := Processed(db, monitor, statuses, readings, i);
            && ok
            && Confined(db, after, KeysFrom(statuses, i), monitor)
            && forall j | i <= j < |statuses| :: Outcome(db, after, statuses[j], readings[j], monitor)
    decreases |statuses| - i
  {
    hide ProcessedOne, Outcome, Inv, KeysFrom, DistinctKeys, Handled;
    if i < |statuses| {
      hide Confined;
      var next := ProcessedOne(db, monitor, statuses[i], readings[i]).0;
      OneStep(db, monitor, statuses[i], readings[i]);
      BatchOutcome(next, monitor, statuses, readings, i + 1);
      BatchJoined(db, next, Processed(next, monitor, statuses, readings, i + 1).0, statuses, readings, i, monitor);
    }
  }

  lemma OneStep(db: Db, monitor: string, st: ReportStatus, r: Reading)
    requires Inv(db) && Handled(st, r) && monitor != ""
    ensures var (next, ok) := ProcessedOne(db, monitor, st, r);
            ok && Inv(next) && Confined(db, next, {KeyOf(st)}, monitor) && Outcome(db, next, st, r, monitor)
  {
    hide Inv, ProcessedOne, Evolves, Confined, Outcome;
    InvRows(db);
    ProcessedOneOutcome(db, monitor, st, r);
    ProcessedOneEvolves(db, monitor, st, r);
    EvolvesInv(db, ProcessedOne(db, monitor, st, r).0);
  }

  // ---------------------------------------------------------------- from probes to outages

  lemma {:induction false} VerdictCounts(results: seq<ProbeResult>, r: ProbeResult)
    requires r in results && !r.errored
    ensures r.report in Verdicts(Group(results, KeyOf(r.report)))
  {
    var init, last := results[..|results| - 1], results[|results| - 1];
    assert results == init + [last];
    var key := KeyOf(r.report);
    var group := Group(init, key);
    if KeyOf(last.report) == key {
      assert (group + [last])[..|group|] == group;
    } else {
      assert group + [] == group;
    }
    if r != last {
      VerdictCounts(init, r);
    }
  }

  lemma NotOmitted(results: seq<ProbeResult>, r: ProbeResult)
    requires r in results && !r.errored && StatusLevel(r.report.status) > 0
    ensures KeyOf(r.report) in Keys(results) && !Omitted(Group(results, KeyOf(r.report)))
  {
    VerdictCounts(results, r);
    hide Group;
    assert r.report.status != StatusHealthy;
  }

  /** The entry of a sub-component that is not omitted, and what processing it did. */
  lemma EntryOutcome(db: Db, monitor: string, results: seq<ProbeResult>, merged: seq<ReportStatus>,
                     readings: seq<Reading>, key: Key)
    returns (j: nat)
    requires Inv(db) && monitor != ""
    requires IsReport(results, merged) && |readings| == |merged| && AllHandled(merged, readings)
    requires key in Keys(results) && !Omitted(Group(results, key))
    ensures j < |merged| && KeyOf(merged[j]) == key && Represents(merged[j], Group(results, key))
    ensures Outcome(db, Processed(db, monitor, merged, readings, 0).0, merged[j], readings[j], monitor)
  {
    var st :| st in merged && KeyOf(st) == key;
    j :| 0 <= j < |merged| && merged[j] == st;
    hide Inv, Outcome, Omitted, Represents;
    BatchOutcome(db, monitor, merged, readings, 0);
  }

  /** The monitor reported the sub-component: it has an open outage, the one it had or a single new
      one that is as severe as the worst verdict and records the reasons of all. */
  ghost predicate Reported(db: Db, after: Db, key: Key, monitor: string, verdicts: seq<ReportStatus>) {
    && OpenBy(after, key, monitor) != {}
    && (OpenBy(db, key, monitor) != {} ==> OpenBy(after, key, monitor) == OpenBy(db, key, monitor))
    && (OpenBy(db, key, monitor) == {} ==>
          exists id ::
            && OpenBy(after, key, monitor) == {id}
            && MostCritical(verdicts, ToStatus(after.rows[id].severity))
            && ReasonsOf(after, id) == FailedReasons(verdicts))
  }

  lemma OutcomeReported(db: Db, after: Db, st: ReportStatus, r: Reading, monitor: string, verdicts: seq<ReportStatus>)
    requires Outcome(db, after, st, r, monitor)
    requires MostCritical(verdicts, st.status) && StatusLevel(st.status) > 0
    requires st.reasons == FailedReasons(verdicts) != []
    ensures Reported(db, after, KeyOf(st), monitor, verdicts)
  {
    hide FailedReasons, MostCritical;
    if OpenBy(db, KeyOf(st), monitor) == {} {
      var id :| Opens(db, after, st, r, monitor, id);
      assert id in OpenBy(after, KeyOf(st), monitor);
      assert ToStatus(after.rows[id].severity) == st.status;
    }
  }

  lemma WorstIsUnhealthy(entry: ReportStatus, group: seq<ProbeResult>, st: ReportStatus)
    requires Represents(entry, group) && st in Verdicts(group) && StatusLevel(st.status) > 0
    ensures MostCritical(Verdicts(group), entry.status) && StatusLevel(entry.status) > 0
    ensures entry.reasons == FailedReasons(Verdicts(group))
  {
  }

  lemma {:induction false} ReasonsCounted(verdicts: seq<ReportStatus>, st: ReportStatus)
    requires st in verdicts && StatusLevel(st.status) > 0 && st.reasons != []
    ensures FailedReasons(verdicts) != []
  {
    var init, last := verdicts[..|verdicts| - 1], verdicts[|verdicts| - 1];
    assert verdicts == init + [last];
    if st != last {
      ReasonsCounted(init, st);
    }
  }

  /** An unhealthy verdict of a probe that carries a reason is an open outage of the monitor after the report. */
  lemma UnhealthyIsOpen(db: Db, monitor: string, results: seq<ProbeResult>, merged: seq<ReportStatus>,
                        readings: seq<Reading>, r: ProbeResult)
    requires Inv(db) && monitor != ""
    requires IsReport(results, merged) && |readings| == |merged| && AllHandled(merged, readings)
    requires r in results && !r.errored && StatusLevel(r.report.status) > 0 && r.report.reasons != []
    ensures Reported(db, Processed(db, monitor, merged, readings, 0).0, KeyOf(r.report), monitor,
                     Verdicts(Group(results, KeyOf(r.report))))
  {
    var key := KeyOf(r.report);
    hide *;
    NotOmitted(results, r);
    VerdictCounts(results, r);
    ReasonsCounted(Verdicts(Group(results, key)), r.report);
    var j := EntryOutcome(db, monitor, results, merged, readings, key);
    WorstIsUnhealthy(merged[j], Group(results, key), r.report);
    OutcomeReported(db, Processed(db, monitor, merged, readings, 0).0, merged[j], readings[j], monitor,
                    Verdicts(Group(results, key)));
  }

  lemma SeverityNamed(results: seq<ProbeResult>, key: Key, severity: Severity)
    requires MostCritical(Verdicts(Group(results, key)), ToStatus(severity))
    ensures severity == SeverityDown <==> Said(results, key, StatusDown)
    ensures severity == SeverityDegraded <==> !Said(results, key, StatusDown) && Said(results, key, StatusDegraded)
    ensures severity == SeverityCapacityExhausted <==>
              && !Said(results, key, StatusDown) && !Said(results, key, StatusDegraded)
              && Said(results, key, StatusCapacityExhausted)
  {
    hide Group, Verdicts, Said, MostCritical, Reached;
    MostCriticalNamed(Verdicts(Group(results, key)), ToStatus(severity));
    SaidVerdict(results, key, StatusDown);
    SaidVerdict(results, key, StatusDegraded);
    SaidVerdict(results, key, StatusCapacityExhausted);
  }

  /** In terms of rows: the monitor has an open outage of the sub-component; and if it had none before, the new
      one has the worst severity that some probe reached, and the reasons in order. */
  lemma UnhealthyRow(db: Db, monitor: string, results: seq<ProbeResult>, merged: seq<ReportStatus>,
                     readings: seq<Reading>, r: ProbeResult)
    returns (id: nat)
    requires Inv(db) && monitor != ""
    requires IsReport(results, merged) && |readings| == |merged| && AllHandled(merged, readings)
    requires r in results && !r.errored && r.report.reasons != []
    requires r.report.status in {StatusDown, StatusDegraded, StatusCapacityExhausted, StatusSuspected}
    ensures var after := Processed(db, monitor, merged, readings, 0).0;
            var key := (r.report.component, r.report.subComponent);
            id in after.rows && var o := after.rows[id];
            && o.component == key.0 && o.subComponent == key.1 && o.createdBy == monitor && o.end == None
            && (id !in db.rows ==>
                  && (o.severity == SeverityDown <==> Said(results, key, StatusDown))
                  && (o.severity == SeverityDegraded <==>
                        !Said(results, key, StatusDown) && Said(results, key, StatusDegraded))
                  && (o.severity == SeverityCapacityExhausted <==>
                        && !Said(results, key, StatusDown) && !Said(results, key, StatusDegraded)
                        && Said(results, key, StatusCapacityExhausted))
                  && ReasonsOf(after, id) == ReasonsFor(results, key))
  {
    hide Processed, Inv, IsReport, AllHandled, Reported, Said;
    UnhealthyIsOpen(db, monitor, results, merged, readings, r);
    assert KeyOf(r.report) == (r.report.component, r.report.subComponent);
    id := ReportedRow(db, Processed(db, monitor, merged, readings, 0).0, results, KeyOf(r.report), monitor);
  }

  lemma ReportedRow(db: Db, after: Db, results: seq<ProbeResult>, key: Key, monitor: string) returns (id: nat)
    requires Reported(db, after, key, monitor, Verdicts(Group(results, key)))
    ensures id in after.rows && var o := after.rows[id];
            && o.component == key.0 && o.subComponent == key.1 && o.createdBy == monitor && o.end == None
            && (id !in db.rows ==>
                  && (o.severity == SeverityDown <==> Said(results, key, StatusDown))
                  && (o.severity == SeverityDegraded <==>
                        !Said(results, key, StatusDown) && Said(results, key, StatusDegraded))
                  && (o.severity == SeverityCapacityExhausted <==>
                        && !Said(results, key, StatusDown) && !Said(results, key, StatusDegraded)
                        && Said(results, key, StatusCapacityExhausted))
                  && ReasonsOf(after, id) == ReasonsFor(results, key))
  {
    hide Group, Verdicts, FailedReasons, Said, MostCritical;
    var verdicts := Verdicts(Group(results, key));
    if OpenBy(db, key, monitor) == {} {
      id :| OpenBy(after, key, monitor) == {id} && MostCritical(verdicts, ToStatus(after.rows[id].severity))
            && ReasonsOf(after, id) == FailedReasons(verdicts);
      assert id in OpenBy(after, key, monitor);
      SeverityNamed(results, key, after.rows[id].severity);
    } else {
      id :| id in OpenBy(db, key, monitor);
      assert id in OpenBy(after, key, monitor);
    }
  }

  /** A sub-component with results all of which are healthy and none of which failed has no open outage of the
      monitor left once auto-resolve is on, except rows that do not validate, which stay. */
  lemma HealthyIsResolved(db: Db, monitor: string, results: seq<ProbeResult>, merged: seq<ReportStatus>,
                          readings: seq<Reading>, key: Key)
    requires Inv(db) && monitor != ""
    requires IsReport(results, merged) && |readings| == |merged| && AllHandled(merged, readings)
    requires exists r :: r in results && About(r, key)
    requires forall r | r in results && About(r, key) :: !r.errored && r.report.status == StatusHealthy
    requires forall j | 0 <= j < |merged| && KeyOf(merged[j]) == key :: AutoResolves(merged[j], readings[j])
    ensures OpenBy(Processed(db, monitor, merged, readings, 0).0, key, monitor)
         == set id | && id in db.rows && !Valid(db.rows[id]) && db.rows[id].end == None
                     && db.rows[id].component == key.0 && db.rows[id].subComponent == key.1
                     && db.rows[id].createdBy == monitor
  {
    AllHealthyKept(results, key);
    hide IsReport, Omitted, Group, AllHandled, Processed, Inv, Outcome, Valid, Open, Represents, Keys, AutoResolves;
    var j := EntryOutcome(db, monitor, results, merged, readings, key);
    AllHealthyEntry(results, merged, merged[j]);
    ResolvedOutcome(db, Processed(db, monitor, merged, readings, 0).0, merged[j], readings[j], monitor);
  }

  lemma AllHealthyKept(results: seq<ProbeResult>, key: Key)
    requires exists r :: r in results && About(r, key)
    requires forall r | r in results && About(r, key) :: !r.errored && r.report.status == StatusHealthy
    ensures key in Keys(results) && !Omitted(Group(results, key))
  {
    var r :| r in results && About(r, key);
    assert Said(results, key, StatusHealthy) && KeyOf(r.report) == key;
    OmittedExactly(results, key);
    hide Omitted, Group;
  }

  lemma AllHealthyEntry(results: seq<ProbeResult>, merged: seq<ReportStatus>, entry: ReportStatus)
    requires IsReport(results, merged) && entry in merged
    requires forall r | r in results && About(r, KeyOf(entry)) :: !r.errored && r.report.status == StatusHealthy
    ensures entry.status == StatusHealthy
  {
    hide IsReport;
    EntryStatus(results, merged, entry);
  }

  lemma ResolvedOutcome(db: Db, after: Db, st: ReportStatus, r: Reading, monitor: string)
    requires Outcome(db, after, st, r, monitor) && st.status == StatusHealthy && AutoResolves(st, r)
    ensures OpenBy(after, KeyOf(st), monitor)
         == set id | && id in db.rows && !Valid(db.rows[id]) && db.rows[id].end == None
                     && db.rows[id].component == st.component && db.rows[id].subComponent == st.subComponent
                     && db.rows[id].createdBy == monitor
  {
    hide Valid, AutoResolves;
  }

  /** A sub-component whose probes failed, or failed and otherwise found it healthy, keeps its outages
      and its last ping; so does one that was not probed. Other creators' outages never change. */
  lemma UnclearIsUntouched(db: Db, monitor: string, results: seq<ProbeResult>, merged: seq<ReportStatus>,
                           readings: seq<Reading>, key: Key, id: nat)
    requires Inv(db) && monitor != ""
    requires IsReport(results, merged) && |readings| == |merged| && AllHandled(merged, readings)
    requires id in db.rows
    ensures var after := Processed(db, monitor, merged, readings, 0).0;
            && (db.rows[id].createdBy != monitor ==> id in after.rows && after.rows[id] == db.rows[id])
            && (Omitted(Group(results, key)) ==>
                  && ((db.rows[id].component, db.rows[id].subComponent) == key ==>
                        id in after.rows && after.rows[id] == db.rows[id])
                  && (key in db.pings <==> key in after.pings)
                  && (key in db.pings ==> after.pings[key] == db.pings[key])
                  && OpenBy(after, key, monitor) == OpenBy(db, key, monitor))
  {
    BatchOutcome(db, monitor, merged, readings, 0);
    var after := Processed(db, monitor, merged, readings, 0).0;
    hide Processed, Inv, Outcome;
    if Omitted(Group(results, key)) {
      assert key !in KeysFrom(merged, 0) by {
        forall j | 0 <= j < |merged| ensures KeyOf(merged[j]) != key {
          assert merged[j] in merged;
        }
      }
      hide Omitted, IsReport;
      ConfinedElsewhere(db, after, KeysFrom(merged, 0), monitor, key);
    }
  }

  /** A sub-component with a failed probe and no verdict but healthy ones, or without any result, keeps the rows
      of all its outages and its ping, and nothing is opened or closed. */
  lemma ErroredIsUntouched(db: Db, monitor: string, results: seq<ProbeResult>, merged: seq<ReportStatus>,
                           readings: seq<Reading>, key: Key, id: nat)
    requires Inv(db) && monitor != ""
    requires IsReport(results, merged) && |readings| == |merged| && AllHandled(merged, readings)
    requires (exists r :: r in results && About(r, key) && r.errored) || (forall r | r in results :: !About(r, key))
    requires forall r | r in results && About(r, key) && !r.errored :: r.report.status == StatusHealthy
    ensures forall entry | entry in merged :: !(entry.component == key.0 && entry.subComponent == key.1)
    ensures var after := Processed(db, monitor, merged, readings, 0).0;
            && (id in db.rows && db.rows[id].component == key.0 && db.rows[id].subComponent == key.1 ==>
                  id in after.rows && after.rows[id] == db.rows[id])
            && (id in after.rows && after.rows[id].component == key.0 && after.rows[id].subComponent == key.1 ==>
                  id in db.rows)
            && (key in db.pings <==> key in after.pings)
            && (key in db.pings ==> after.pings[key] == db.pings[key])
  {
    OmittedExactly(results, key);
    EntryExactly(results, merged, key);
    hide IsReport, Omitted, Group, Said;
    forall entry | entry in merged ensures !(entry.component == key.0 && entry.subComponent == key.1) {
      assert (entry.component, entry.subComponent) == key ==> false;
    }
    BatchOutcome(db, monitor, merged, readings, 0);
    hide Processed, Inv, Outcome;
    assert key !in KeysFrom(merged, 0) by {
      forall j | 0 <= j < |merged| ensures KeyOf(merged[j]) != key {
        assert merged[j] in merged;
      }
    }
  }
}
