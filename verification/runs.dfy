/** The dashboard as a state machine: every request, check and failure is one event, and a run is
    any sequence of events. Whole requests are serialised. */
module Runs {
  import opened Base
  import opened Models
  import opened Configuration
  import opened Store
  import opened Audit
  import opened Report
  import opened Absent
  import opened Users

  datatype RawEvent =
    | MonitorReport(gate: Config, account: string, monitor: string, statuses: seq<ReportStatus>, readings: seq<Reading>)
    | AbsentCheck(cfg: Config, envs: seq<Env>)
    | UserCreate(cfg: Config, c: string, s: string, user: string, req: UpsertRequest, env: Env)
    | UserPatch(cfg: Config, c: string, s: string, id: nat, user: string, req: UpsertRequest, env: Env)
    | UserDelete(cfg: Config, c: string, s: string, id: nat, user: string, env: Env)

  /** Each status and each visited sub-component comes with its own environment. */
  predicate Shaped(e: RawEvent) {
    match e
    case MonitorReport(_, _, _, statuses, readings) => |readings| == |statuses|
    case AbsentCheck(cfg, envs) => |envs| == |Targets(cfg.components)|
    case _ => true
  }

  type Event = e: RawEvent | Shaped(e) witness MonitorReport(Config([]), "", "", [], [])

  /** `PostComponentMonitorReportJSON` processes a report only if it names a monitor, is not empty,
      and every status may be reported. */
  predicate Accepted(gate: Config, account: string, monitor: string, statuses: seq<ReportStatus>) {
    && monitor != ""
    && statuses != []
    && forall i | 0 <= i < |statuses| :: MayReport(gate, account, monitor, statuses[i])
  }

  function Step(db: Db, e: Event): Db {
    match e
    case MonitorReport(gate, account, monitor, statuses, readings) =>
      if Accepted(gate, account, monitor, statuses) then Processed(db, monitor, statuses, readings, 0).0 else db
    case AbsentCheck(cfg, envs) => Checked(db, Targets(cfg.components), envs, 0)
    case UserCreate(cfg, c, s, user, req, env) => UserCreated(db, cfg, c, s, user, req, env).0
    case UserPatch(cfg, c, s, id, user, req, env) => UserPatched(db, cfg, c, s, id, user, req, env).0
    case UserDelete(cfg, c, s, id, user, env) => UserDeleted(db, cfg, c, s, id, user, env).0
  }

  /** A report without a monitor's name or statuses, or with a status that this account may not report, changes
      nothing. */
  lemma RejectedReport(db: Db, e: Event, k: nat)
    requires e.MonitorReport?
    requires || e.monitor == "" || e.statuses == []
             || (k < |e.statuses| &&
                 var st := e.statuses[k];
                 !exists i: nat, j: nat ::
                    Entitled(e.gate.components, e.account, e.monitor, st.component, st.subComponent, i, j))
    ensures Step(db, e) == db
  {
    if k < |e.statuses| {
      MayReportExactly(e.gate, e.account, e.monitor, e.statuses[k]);
    }
    hide Processed, MayReport;
  }

  function Run(db: Db, events: seq<Event>): Db {
    if events == [] then db else Step(Run(db, events[..|events| - 1]), events[|events| - 1])
  }

  // ---------------------------------------------------------------- the audited history

  lemma {:induction false} ResolvedEvolves(db: Db, found: seq<Found>, user: string, env: Env)
    requires forall f | f in found && f.id in db.rows :: SameIdentity(db.rows[f.id], f.row)
    ensures Evolves(db, Resolved(db, found, user, env))
    decreases |found|
  {
    hide Evolves;
    EvolvesReflexive(db);
    if found != [] {
      var id, row := found[0].id, found[0].row.(end := Some(env.now));
      var next := Updated(db, id, row, user, env.now, FaultOf(env, id)).0;
      UpdatedEvolves(db, id, row, user, env.now, FaultOf(env, id));
      ResolvedEvolves(next, found[1..], user, env);
      EvolvesTransitive(db, next, Resolved(db, found, user, env));
    }
  }

  lemma ResolvedOpenEvolves(db: Db, c: string, s: string, src: Source, user: string, env: Env)
    ensures Evolves(db, Resolved(db, QueryOpen(db, c, s, src, env.order), user, env))
  {
    ResolvedEvolves(db, QueryOpen(db, c, s, src, env.order), user, env);
  }

  lemma ProcessedOneEvolves(db: Db, monitor: string, st: ReportStatus, r: Reading)
    ensures Evolves(db, ProcessedOne(db, monitor, st, r).0)
  {
    ProcessedOneIs(db, monitor, st, r);
    hide ProcessedOne, Evolves, Created, Resolved, QueryOpen, Lookup, Pinged, MonitorOutage;
    EvolvesReflexive(db);
    var pinged := Pinged(db, st.component, st.subComponent, r.env.now);
    var active := QueryOpen(pinged, st.component, st.subComponent, CreatedBy(monitor), r.env.order);
    PingedEvolves(db, st.component, st.subComponent, r.env.now);
    ResolvedOpenEvolves(pinged, st.component, st.subComponent, CreatedBy(monitor), monitor, r.env);
    EvolvesTransitive(db, pinged, Resolved(pinged, active, monitor, r.env));
    var sub := Lookup(r.cfg, st.component, st.subComponent);
    if sub.Some? {
      var o := MonitorOutage(st, monitor, r.env.now, sub.value.requiresConfirmation);
      CreatedEvolves(pinged, o, st.reasons, monitor, r.env.now, r.env.writeFault);
      EvolvesTransitive(db, pinged, Created(pinged, o, st.reasons, monitor, r.env.now, r.env.writeFault).0);
    }
  }

  lemma {:induction false} ProcessedEvolves(db: Db, monitor: string, statuses: seq<ReportStatus>,
                                            readings: seq<Reading>, i: nat)
    requires |readings| == |statuses| && i <= |statuses|
    ensures Evolves(db, Processed(db, monitor, statuses, readings, i).0)
    decreases |statuses| - i
  {
    hide Evolves, ProcessedOne;
    EvolvesReflexive(db);
    if i < |statuses| {
      var (next, ok) := ProcessedOne(db, monitor, statuses[i], readings[i]);
      ProcessedOneEvolves(db, monitor, statuses[i], readings[i]);
      if ok {
        ProcessedEvolves(next, monitor, statuses, readings, i + 1);
        EvolvesTransitive(db, next, Processed(next, monitor, statuses, readings, i + 1).0);
      }
    }
  }

  lemma CheckedOneEvolves(db: Db, t: Target, env: Env)
    ensures Evolves(db, CheckedOne(db, t, env))
  {
    hide Evolves, Created, Resolved, QueryOpen;
    EvolvesReflexive(db);
    if t.sub.monitoring.Some? {
      ResolvedOpenEvolves(db, t.component, t.sub.slug, DiscoveredFrom(ABSENT_SOURCE), t.sub.monitoring.value.monitor,
          env);
      CreatedEvolves(db, AbsentOutage(t.component, t.sub, env.now), [], ABSENT_CREATOR, env.now, env.writeFault);
    }
  }

  lemma {:induction false} CheckedEvolves(db: Db, targets: seq<Target>, envs: seq<Env>, k: nat)
    requires |envs| == |targets| && k <= |targets|
    ensures Evolves(db, Checked(db, targets, envs, k))
    decreases |targets| - k
  {
    hide Evolves, CheckedOne;
    EvolvesReflexive(db);
    if k < |targets| {
      var next := CheckedOne(db, targets[k], envs[k]);
      CheckedOneEvolves(db, targets[k], envs[k]);
      CheckedEvolves(next, targets, envs, k + 1);
      EvolvesTransitive(db, next, Checked(next, targets, envs, k + 1));
    }
  }

  lemma StepEvolves(db: Db, e: Event)
    ensures Evolves(db, Step(db, e))
  {
    hide Evolves, Created, Processed, Checked, Deleted;
    EvolvesReflexive(db);
    match e
    case MonitorReport(gate, account, monitor, statuses, readings) =>
      ProcessedEvolves(db, monitor, statuses, readings, 0);
    case AbsentCheck(cfg, envs) =>
      CheckedEvolves(db, Targets(cfg.components), envs, 0);
    case UserCreate(cfg, c, s, user, req, env) =>
      if req.start.Some? && Lookup(cfg, c, s).Some? {
        var o := UserOutage(c, s, user, req, Lookup(cfg, c, s).value.requiresConfirmation, env.now);
        CreatedEvolves(db, o, [], user, env.now, env.writeFault);
      }
    case UserPatch(cfg, c, s, id, user, req, env) =>
      if id in db.rows {
        UpdatedEvolves(db, id, Patched(db.rows[id], req, env.now), user, env.now, env.writeFault);
      }
    case UserDelete(cfg, c, s, id, user, env) =>
      DeletedEvolves(db, id, user, env.writeFault);
  }

  lemma {:induction false} RunEvolves(db: Db, events: seq<Event>)
    ensures Evolves(db, Run(db, events))
  {
    hide Evolves, Step;
    EvolvesReflexive(db);
    if events != [] {
      var earlier := events[..|events| - 1];
      RunEvolves(db, earlier);
      StepEvolves(Run(db, earlier), events[|events| - 1]);
      EvolvesTransitive(db, Run(db, earlier), Run(db, events));
    }
  }

  lemma EmptyInv()
    ensures Inv(EMPTY)
  {
  }

  /** Audit replay: after any run, whatever failed or was rolled back, folding the log gives the
      outage table, and the entries of each outage form CREATE UPDATE* DELETE? in which every Old is
      the previous New. */
  lemma AuditReplays(events: seq<Event>, id: nat)
    ensures var db := Run(EMPTY, events);
            && Replay(db.audit) == db.rows
            && Chained(Trail(db.audit, id))
            && EndsIn(Trail(db.audit, id), db.rows, id)
  {
    RunEvolves(EMPTY, events);
    EmptyInv();
    TrailChained(Run(EMPTY, events).audit, id);
    TrailEnds(Run(EMPTY, events).audit, id);
  }

  lemma {:induction false} RunSplit(db: Db, events: seq<Event>, i: nat)
    requires i <= |events|
    ensures Run(db, events) == Run(Run(db, events[..i]), events[i..])
  {
    hide Step;
    if i < |events| {
      var n := |events| - 1;
      RunSplit(db, events[..n], i);
      assert events[..n][..i] == events[..i];
      assert events[i..][..n - i] == events[..n][i..];
    } else {
      assert events[..i] == events;
    }
  }

  /** What one state of a run still shows of an earlier one: cutting the log where it stood then and
      replaying it gives the table of that moment; rows that are in both tables agree on component,
      sub-component, creator and source; a deleted identifier does not return. */
  predicate Remembers(present: Db, past: Db) {
    && |past.audit| <= |present.audit|
    && Replay(present.audit[..|past.audit|]) == past.rows
    && (forall id | id in past.rows && id in present.rows :: SameIdentity(past.rows[id], present.rows[id]))
    && (forall id | id < past.nextId && id !in past.rows :: id !in present.rows)
  }

  lemma EvolvedRemembers(past: Db, present: Db)
    requires Inv(past) && Evolves(past, present)
    ensures Remembers(present, past)
  {
    assert present.audit[..|past.audit|] == past.audit;
    hide LogOk, EntriesOk, RowsOk;
  }

  /** Every state of a run remembers every earlier state of it. */
  lemma HistoryKept(events: seq<Event>, i: nat)
    requires i <= |events|
    ensures Remembers(Run(EMPTY, events), Run(EMPTY, events[..i]))
  {
    var past := Run(EMPTY, events[..i]);
    EmptyInv();
    RunEvolves(EMPTY, events[..i]);
    RunEvolves(past, events[i..]);
    RunSplit(EMPTY, events, i);
    assert Inv(past);
    hide Inv, Run, Remembers;
    EvolvedRemembers(past, Run(past, events[i..]));
  }
}
