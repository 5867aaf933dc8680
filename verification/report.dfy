/** cmd/dashboard/component_monitoring_report.go: validating and processing a monitor's report. */
module Report {
  import opened Base
  import opened Models
  import opened Configuration
  import opened Store

  const COMPONENT_MONITOR := "component-monitor"
  const DETECTED := "Component monitor detected outage"

  datatype ReportStatus = ReportStatus(component: string, subComponent: string, status: Status, reasons: seq<Reason>)

  /** One status is handled under the configuration current at that moment. */
  datatype Reading = Reading(cfg: Config, env: Env)

  // ---------------------------------------------------------------- validation

  /** A status may be reported: its sub-component exists, the account owns the component, and the
      sub-component is configured for this monitor. */
  predicate MayReport(cfg: Config, account: string, monitor: string, st: ReportStatus) {
    match FindComponent(cfg.components, st.component)
    case None => false
    case Some(component) =>
      && account != ""
      && account in component.accounts
      && match FindSub(component.subs, st.subComponent)
         case None => false
         case Some(sub) => sub.monitoring.Some? && sub.monitoring.value.monitor == monitor
  }

  /** The first component and sub-component with these slugs are there, this account is an owner of the one, and
      the other is configured for this monitor. */
  predicate Entitled(components: seq<Component>, account: string, monitor: string, c: string, s: string,
                     i: nat, j: nat)
  {
    && i < |components| && components[i].slug == c && (forall k | 0 <= k < i :: components[k].slug != c)
    && account != "" && account in components[i].accounts
    && var subs := components[i].subs;
    && j < |subs| && subs[j].slug == s && (forall k | 0 <= k < j :: subs[k].slug != s)
    && subs[j].monitoring.Some? && subs[j].monitoring.value.monitor == monitor
  }

  lemma MayReportExactly(cfg: Config, account: string, monitor: string, st: ReportStatus)
    ensures MayReport(cfg, account, monitor, st) <==>
            exists i: nat, j: nat :: Entitled(cfg.components, account, monitor, st.component, st.subComponent, i, j)
  {
    var components, c, s := cfg.components, st.component, st.subComponent;
    if MayReport(cfg, account, monitor, st) {
      var i := ComponentIndex(components, c);
      FirstComponent(components, c, i);
      var j := SubIndex(components[i].subs, s);
      FirstSub(components[i].subs, s, j);
      assert Entitled(components, account, monitor, c, s, i, j);
    }
    if i: nat, j: nat :| Entitled(components, account, monitor, c, s, i, j) {
      FirstComponent(components, c, i);
      FirstSub(components[i].subs, s, j);
    }
  }

  /** `ValidateRequest`, with its aggregated errors counted: it succeeds exactly when every status
      may be reported. */
  method ValidateRequest(cfg: Config, account: string, monitor: string, statuses: seq<ReportStatus>)
    returns (errors: nat)
    ensures errors == 0 <==> forall k | 0 <= k < |statuses| :: MayReport(cfg, account, monitor, statuses[k])
    ensures errors <= |statuses|
  {
    errors := 0;
    for i := 0 to |statuses|
      invariant errors <= i
      invariant errors == 0 <==> forall k | 0 <= k < i :: MayReport(cfg, account, monitor, statuses[k])
    {
      var st := statuses[i];
      var component := FindComponent(cfg.components, st.component);
      if component == None {
        errors := errors + 1;
        continue;
      }
      var isOwner := false;
      var accounts := component.value.accounts;
      for j := 0 to |accounts|
        invariant isOwner <==> account != "" && account in accounts[..j]
      {
        assert accounts[..j + 1] == accounts[..j] + [accounts[j]];
        if accounts[j] == "" {
          continue;
        }
        if accounts[j] == account {
          isOwner := true;
          break;
        }
      }
      assert accounts[..|accounts|] == accounts;
      assert isOwner <==> account != "" && account in accounts;
      if !isOwner {
        errors := errors + 1;
        continue;
      }
      var sub := FindSub(component.value.subs, st.subComponent);
      if sub == None {
        errors := errors + 1;
        continue;
      }
      if sub.value.monitoring.None? || sub.value.monitoring.value.monitor != monitor {
        errors := errors + 1;
      }
    }
  }

  // ---------------------------------------------------------------- processing

  function MonitorOutage(st: ReportStatus, monitor: string, now: Time, requiresConfirmation: bool): Outage {
    Outage(st.component, st.subComponent, ToSeverity(st.status), now, None, DETECTED, COMPONENT_MONITOR, monitor,
           if requiresConfirmation then None else Some(now), None, 0)
  }

  lemma DetectedIsText()
    ensures !Blank(DETECTED)
  {
    assert DETECTED[0] == 'C' && DETECTED[0] in DETECTED;
  }

  /** The first half of handling a status: the ping, and the outages found open, `None` if a lookup, the
      ping or the query fails. */
  function Looked(db: Db, monitor: string, st: ReportStatus, r: Reading): (Db, Option<seq<Found>>) {
    if Lookup(r.cfg, st.component, st.subComponent).None? || r.env.pingFails then
      (db, None)
    else
      var pinged := Pinged(db, st.component, st.subComponent, r.env.now);
      var active := QueryOpen(pinged, st.component, st.subComponent, CreatedBy(monitor), r.env.order);
      (pinged, if r.env.queryFails then None else Some(active))
  }

  /** The second half, which writes by what was found before; the flag says whether the batch goes on. */
  function Acted(db: Db, monitor: string, st: ReportStatus, r: Reading, active: seq<Found>): (Db, bool)
    requires Lookup(r.cfg, st.component, st.subComponent).Some?
  {
    var sub := Lookup(r.cfg, st.component, st.subComponent).value;
    if st.status == StatusHealthy then
      (if sub.monitoring.Some? && sub.monitoring.value.autoResolve then Resolved(db, active, monitor, r.env) else db,
       true)
    else if ToSeverity(st.status) == SeverityOther("") || active != [] || st.reasons == [] then
      (db, true)
    else
      var o := MonitorOutage(st, monitor, r.env.now, sub.requiresConfirmation);
      (Created(db, o, st.reasons, monitor, r.env.now, r.env.writeFault).0, Valid(o))
  }

  /** Effect of one reported status that is handled without another one in between. */
  function ProcessedOne(db: Db, monitor: string, st: ReportStatus, r: Reading): (Db, bool) {
    var (looked, found) := Looked(db, monitor, st, r);
    match found
    case None => (looked, false)
    case Some(active) => Acted(looked, monitor, st, r, active)
  }

  /** What can become of the tables when a status is handled. */
  lemma ProcessedOneIs(db: Db, monitor: string, st: ReportStatus, r: Reading)
    ensures var after := ProcessedOne(db, monitor, st, r).0;
            var pinged := Pinged(db, st.component, st.subComponent, r.env.now);
            var active := QueryOpen(pinged, st.component, st.subComponent, CreatedBy(monitor), r.env.order);
            var sub := Lookup(r.cfg, st.component, st.subComponent);
            || after == db || after == pinged || after == Resolved(pinged, active, monitor, r.env)
            || (sub.Some? &&
                  var o := MonitorOutage(st, monitor, r.env.now, sub.value.requiresConfirmation);
                  after == Created(pinged, o, st.reasons, monitor, r.env.now, r.env.writeFault).0)
  {
    hide Resolved, QueryOpen, Created, Lookup, Pinged, Valid;
  }

  /** Effect of the statuses from index `i` on; the flag says whether all of them were handled. */
  function Processed(db: Db, monitor: string, statuses: seq<ReportStatus>, readings: seq<Reading>, i: nat): (Db, bool)
    requires |readings| == |statuses| && i <= |statuses|
    decreases |statuses| - i
  {
    if i == |statuses| then
      (db, true)
    else
      var (next, ok) := ProcessedOne(db, monitor, statuses[i], readings[i]);
      if ok then Processed(next, monitor, statuses, readings, i + 1) else (next, false)
  }

  /** A status stops its batch exactly if its sub-component is not configured or the ping or the query fails; then it
      leaves nothing but, before a failing query, its ping. */
  lemma StopsExactly(db: Db, monitor: string, st: ReportStatus, r: Reading)
    requires monitor != "" && r.env.now != 0
    ensures var (after, ok) := ProcessedOne(db, monitor, st, r);
            var configured := Lookup(r.cfg, st.component, st.subComponent).Some?;
            && (ok <==> configured && !r.env.pingFails && !r.env.queryFails)
            && (!ok ==> after == if configured && !r.env.pingFails
                                 then db.(pings := db.pings[(st.component, st.subComponent) := r.env.now])
                                 else db)
  {
    DetectedIsText();
    hide Blank, Lookup, Resolved, QueryOpen, Created;
  }

  lemma {:induction false} HandledFirst(db: Db, monitor: string, statuses: seq<ReportStatus>, readings: seq<Reading>,
                                        i: nat, n: nat)
    requires |readings| == |statuses| && i <= n <= |statuses|
    requires Processed(db, monitor, statuses[..n], readings[..n], i).1
    ensures Processed(db, monitor, statuses, readings, i)
         == Processed(Processed(db, monitor, statuses[..n], readings[..n], i).0, monitor, statuses, readings, n)
    decreases n - i
  {
    hide ProcessedOne;
    if i < n {
      HandledFirst(ProcessedOne(db, monitor, statuses[i], readings[i]).0, monitor, statuses, readings, i + 1, n);
    }
  }

  /** A batch whose first `n` statuses are handled and whose next one is not: what the former did stays, and nothing
      after the latter is done. */
  lemma BatchStops(db: Db, monitor: string, statuses: seq<ReportStatus>, readings: seq<Reading>, n: nat)
    requires |readings| == |statuses| && n < |statuses|
    requires var (before, ok) := Processed(db, monitor, statuses[..n], readings[..n], 0);
             ok && !ProcessedOne(before, monitor, statuses[n], readings[n]).1
    ensures var before := Processed(db, monitor, statuses[..n], readings[..n], 0).0;
            var after := ProcessedOne(before, monitor, statuses[n], readings[n]).0;
            Processed(db, monitor, statuses, readings, 0) == (after, false)
  {
    HandledFirst(db, monitor, statuses, readings, 0, n);
    hide ProcessedOne;
  }

  class ReportProcessor {
    const store: OutageStore

    constructor (store: OutageStore)
      ensures this.store == store
    {
      this.store := store;
    }

    /** `Process`: the statuses in order, stopping at the first failing lookup, ping, query or
        validation and keeping what was done before. */
    method Process(monitor: string, statuses: seq<ReportStatus>, readings: seq<Reading>) returns (ok: bool)
      requires |readings| == |statuses|
      modifies store
      ensures (store.Contents(), ok) == Processed(old(store.Contents()), monitor, statuses, readings, 0)
    {
      var i := 0;
      while i < |statuses|
        invariant i <= |statuses|
        invariant Processed(store.Contents(), monitor, statuses, readings, i)
               == Processed(old(store.Contents()), monitor, statuses, readings, 0)
      {
        var proceed := ProcessStatus(monitor, statuses[i], readings[i]);
        if !proceed {
          return false;
        }
        i := i + 1;
      }
      ok := true;
    }

    /** The body of the loop in `Process`; the original's `continue` returns true here. */
    method ProcessStatus(monitor: string, st: ReportStatus, r: Reading) returns (proceed: bool)
      modifies store
      ensures (store.Contents(), proceed) == ProcessedOne(old(store.Contents()), monitor, st, r)
    {
      var sub := Lookup(r.cfg, st.component, st.subComponent);
      if sub == None || r.env.pingFails {
        return false;
      }
      var now := r.env.now;
      store.UpsertPing(st.component, st.subComponent, now);
      if r.env.queryFails {
        return false;
      }
      var active := QueryOpen(store.Contents(), st.component, st.subComponent, CreatedBy(monitor), r.env.order);
      if st.status == StatusHealthy {
        if |active| == 0 {
          return true;
        }
        if sub.value.monitoring.None? || !sub.value.monitoring.value.autoResolve {
          return true;
        }
        store.ResolveAll(active, monitor, r.env);
        return true;
      }
      if ToSeverity(st.status) == SeverityOther("") {
        return true;
      }
      if |active| > 0 {
        return true;
      }
      if |st.reasons| == 0 {
        return true;
      }
      var o := MonitorOutage(st, monitor, now, sub.value.requiresConfirmation);
      var valid := Validate(o);
      if !valid {
        return false;
      }
      var _ := store.CreateOutage(o, st.reasons, monitor, now, r.env.writeFault);
      return true;
    }
  }
}
