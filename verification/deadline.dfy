/** cmd/dashboard/absent_report.go over whole runs: when the checker opens an outage for a silent
    monitor, by when it must have, and how its ticker schedules the checks. */
module Deadline {
  import opened Base
  import opened Models
  import opened Configuration
  import opened Store
  import opened Audit
  import opened Effects
  import opened Report
  import opened Absent
  import opened Users
  import opened Runs
  import opened Deduplication

  function AbsentOpen(db: Db, c: string, s: string): set<nat> {
    Open(db, c, s, DiscoveredFrom(ABSENT_SOURCE))
  }

  predicate At(t: Target, c: string, s: string) {
    t.component == c && t.sub.slug == s
  }

  predicate Scheduled(t: Target) {
    t.sub.monitoring.Some? && t.sub.monitoring.value.frequency.Some?
  }

  function Frequency(t: Target): int
    requires Scheduled(t)
  {
    t.sub.monitoring.value.frequency.value
  }

  /** A visit at which the ping is found overdue. */
  predicate Late(db: Db, t: Target, env: Env) {
    Scheduled(t) && Overdue(db, t.component, t.sub.slug, Frequency(t), env.now)
  }

  /** The row is one the checker writes for this sub-component. */
  predicate Blamed(o: Outage, c: string, s: string) {
    o.component == c && o.subComponent == s && o.discoveredFrom == ABSENT_SOURCE && o.createdBy == ABSENT_CREATOR
  }

  /** Exactly when a visit opens an outage: the ping is overdue by the whole threshold or missing,
      nothing is open yet, and the database works. */
  lemma CheckerOpens(db: Db, t: Target, env: Env, id: nat)
    requires RowsOk(db) && env.now != 0
    ensures var after := CheckedOne(db, t, env);
            id in after.rows && id !in db.rows <==>
              && id == db.nextId
              && t.sub.monitoring.Some? && t.sub.monitoring.value.frequency.Some?
              && ((t.component, t.sub.slug) !in db.pings
                  || env.now > db.pings[(t.component, t.sub.slug)] + 3 * t.sub.monitoring.value.frequency.value)
              && AbsentOpen(db, t.component, t.sub.slug) == {}
              && !env.pingFails && !env.queryFails && !Hits(env.writeFault, 2)
    ensures var after := CheckedOne(db, t, env);
            id in after.rows && id !in db.rows ==>
              && Blamed(after.rows[id], t.component, t.sub.slug)
              && OpenEnded(after.rows[id]) && after.rows[id].severity == SeverityDown
              && after.rows[id].start == Truncate(env.now) && after.rows[id].description == ABSENT_DESCRIPTION
              && after.rows[id].confirmedAt == (if t.sub.requiresConfirmation then None else Some(Truncate(env.now)))
  {
    hide Resolved, QueryOpen;
    AbsentIsText();
    hide Blank;
    if t.sub.monitoring.Some? {
      QueryLoads(db, t.component, t.sub.slug, DiscoveredFrom(ABSENT_SOURCE), env.order);
      ResolvedOpen(db, t.component, t.sub.slug, DiscoveredFrom(ABSENT_SOURCE), t.sub.monitoring.value.monitor, env);
    }
  }

  /** What a punctual visit leaves open: nothing that can be ended if auto-resolve is on, everything
      otherwise. */
  lemma CheckerResolves(db: Db, t: Target, env: Env)
    requires Scheduled(t) && !Late(db, t, env) && NoFaults(env)
    ensures AbsentOpen(CheckedOne(db, t, env), t.component, t.sub.slug)
         == set id | && id in AbsentOpen(db, t.component, t.sub.slug)
                     && (Valid(db.rows[id]) ==> !t.sub.monitoring.value.autoResolve)
  {
    ResolvedOpen(db, t.component, t.sub.slug, DiscoveredFrom(ABSENT_SOURCE), t.sub.monitoring.value.monitor, env);
    hide Resolved, QueryOpen, Valid, Created;
  }

  // ---------------------------------------------------------------- what stays while nobody intervenes

  predicate SamePing(a: Db, b: Db, c: string, s: string) {
    && ((c, s) in a.pings <==> (c, s) in b.pings)
    && ((c, s) in a.pings ==> a.pings[(c, s)] == b.pings[(c, s)])
  }

  predicate Persists(a: Db, b: Db, c: string, s: string) {
    SamePing(a, b, c, s) && AbsentOpen(a, c, s) <= AbsentOpen(b, c, s)
  }

  lemma PersistsReflexive(a: Db, c: string, s: string)
    ensures Persists(a, a, c, s)
  {
  }

  lemma PersistsTransitive(x: Db, y: Db, z: Db, c: string, s: string)
    requires Persists(x, y, c, s) && Persists(y, z, c, s)
    ensures Persists(x, z, c, s)
  {
  }

  /** Ending rows under other keys leaves these open. */
  lemma EndsElsewhere(a: Db, b: Db, c': string, s': string, src: Source, env: Env, c: string, s: string)
    requires EndsRows(a, b, Open(a, c', s', src), env) && (c', s') != (c, s)
    ensures Persists(a, b, c, s)
  {
  }

  lemma CreatedPersists(db: Db, o: Outage, reasons: seq<Reason>, user: string, now: Time, fault: Fault, c: string,
                        s: string)
    requires RowsOk(db)
    ensures Persists(db, Created(db, o, reasons, user, now, fault).0, c, s)
  {
  }

  lemma CheckedOnePersists(db: Db, t: Target, env: Env, c: string, s: string)
    requires RowsOk(db)
    requires At(t, c, s) && Scheduled(t) ==> Late(db, t, env)
    ensures Persists(db, CheckedOne(db, t, env), c, s)
  {
    hide Resolved, QueryOpen, Created;
    PersistsReflexive(db, c, s);
    if t.sub.monitoring.Some? {
      var c', s', own := t.component, t.sub.slug, DiscoveredFrom(ABSENT_SOURCE);
      var user := t.sub.monitoring.value.monitor;
      ResolvedOpen(db, c', s', own, user, env);
      CreatedPersists(db, AbsentOutage(c', t.sub, env.now), [], ABSENT_CREATOR, env.now, env.writeFault, c, s);
      hide EndsRows, RowsOk, Persists;
      if !At(t, c, s) {
        EndsElsewhere(db, Resolved(db, QueryOpen(db, c', s', own, env.order), user, env), c', s', own, env, c, s);
      }
    }
  }

  lemma CheckedOneOpens(db: Db, t: Target, env: Env)
    requires RowsOk(db) && Late(db, t, env) && NoFaults(env) && env.now != 0
    ensures AbsentOpen(CheckedOne(db, t, env), t.component, t.sub.slug) != {}
  {
    var c, s, own := t.component, t.sub.slug, DiscoveredFrom(ABSENT_SOURCE);
    AbsentIsText();
    QueryLoads(db, c, s, own, env.order);
    var o := AbsentOutage(c, t.sub, env.now);
    CreatedOpens(db, o, [], ABSENT_CREATOR, env.now, env.writeFault, c, s, own);
    hide Resolved, QueryOpen, Blank, RowsOk, Open;
    assert Created(db, o, [], ABSENT_CREATOR, env.now, env.writeFault).1.Some?;
    hide Created;
  }

  lemma CheckedOneKeepsInv(db: Db, t: Target, env: Env)
    requires Inv(db)
    ensures Inv(CheckedOne(db, t, env)) && RowsOk(db)
  {
    hide Inv, CheckedOne, Evolves;
    InvRows(db);
    CheckedOneEvolves(db, t, env);
    EvolvesInv(db, CheckedOne(db, t, env));
  }

  /** Every visit this check pays to the sub-component finds the ping overdue. */
  predicate LateVisits(db: Db, targets: seq<Target>, envs: seq<Env>, c: string, s: string)
    requires |envs| == |targets|
  {
    forall i | 0 <= i < |targets| && At(targets[i], c, s) && Scheduled(targets[i]) :: Late(db, targets[i], envs[i])
  }

  lemma LateKept(a: Db, b: Db, targets: seq<Target>, envs: seq<Env>, c: string, s: string)
    requires |envs| == |targets| && LateVisits(a, targets, envs, c, s) && SamePing(a, b, c, s)
    ensures LateVisits(b, targets, envs, c, s)
  {
  }

  lemma {:induction false} CheckedPersists(db: Db, targets: seq<Target>, envs: seq<Env>, k: nat, c: string, s: string)
    requires Inv(db) && |envs| == |targets| && k <= |targets|
    requires LateVisits(db, targets, envs, c, s)
    ensures Persists(db, Checked(db, targets, envs, k), c, s)
    decreases |targets| - k
  {
    hide CheckedOne, Inv, RowsOk, AbsentOpen;
    PersistsReflexive(db, c, s);
    if k < |targets| {
      var next := CheckedOne(db, targets[k], envs[k]);
      CheckedOneKeepsInv(db, targets[k], envs[k]);
      CheckedOnePersists(db, targets[k], envs[k], c, s);
      LateKept(db, next, targets, envs, c, s);
      CheckedPersists(next, targets, envs, k + 1, c, s);
      hide Persists, LateVisits;
      PersistsTransitive(db, next, Checked(next, targets, envs, k + 1), c, s);
    }
  }

  lemma {:induction false} CheckedOpens(db: Db, targets: seq<Target>, envs: seq<Env>, k: nat, j: nat)
    requires Inv(db) && |envs| == |targets| && k <= j < |targets|
    requires LateVisits(db, targets, envs, targets[j].component, targets[j].sub.slug) && Scheduled(targets[j])
    requires NoFaults(envs[j]) && envs[j].now != 0
    ensures AbsentOpen(Checked(db, targets, envs, k), targets[j].component, targets[j].sub.slug) != {}
    decreases |targets| - k
  {
    hide CheckedOne, Inv, RowsOk, AbsentOpen, NoFaults;
    var c, s := targets[j].component, targets[j].sub.slug;
    var next := CheckedOne(db, targets[k], envs[k]);
    CheckedOneKeepsInv(db, targets[k], envs[k]);
    CheckedOnePersists(db, targets[k], envs[k], c, s);
    LateKept(db, next, targets, envs, c, s);
    if k == j {
      CheckedOneOpens(db, targets[k], envs[k]);
      CheckedPersists(next, targets, envs, k + 1, c, s);
    } else {
      CheckedOpens(next, targets, envs, k + 1, j);
    }
  }

  // ---------------------------------------------------------------- events

  predicate Reports(statuses: seq<ReportStatus>, c: string, s: string) {
    exists i :: 0 <= i < |statuses| && statuses[i].component == c && statuses[i].subComponent == s
  }

  /** Neither a ping nor a person's edit reaches the sub-component. */
  predicate Quiet(e: Event, c: string, s: string) {
    match e
    case MonitorReport(_, _, _, statuses, _) => !Reports(statuses, c, s)
    case UserPatch(_, c', s', _, _, _, _) => (c', s') != (c, s)
    case UserDelete(_, c', s', _, _, _) => (c', s') != (c, s)
    case _ => true
  }

  lemma ProcessedOnePersists(db: Db, monitor: string, st: ReportStatus, r: Reading, c: string, s: string)
    requires RowsOk(db) && (st.component, st.subComponent) != (c, s)
    ensures Persists(db, ProcessedOne(db, monitor, st, r).0, c, s)
  {
    var c', s', own := st.component, st.subComponent, CreatedBy(monitor);
    var pinged := Pinged(db, c', s', r.env.now);
    assert Persists(db, pinged, c, s) && RowsOk(pinged);
    PersistsReflexive(db, c, s);
    ProcessedOneIs(db, monitor, st, r);
    hide ProcessedOne, Resolved, QueryOpen, Created, Persists, Lookup, Pinged, RowsOk, MonitorOutage;
    var resolved := Resolved(pinged, QueryOpen(pinged, c', s', own, r.env.order), monitor, r.env);
    ResolvedOpen(pinged, c', s', own, monitor, r.env);
    EndsElsewhere(pinged, resolved, c', s', own, r.env, c, s);
    hide EndsRows;
    PersistsTransitive(db, pinged, resolved, c, s);
    var sub := Lookup(r.cfg, c', s');
    if sub.Some? {
      var o := MonitorOutage(st, monitor, r.env.now, sub.value.requiresConfirmation);
      CreatedPersists(pinged, o, st.reasons, monitor, r.env.now, r.env.writeFault, c, s);
      PersistsTransitive(db, pinged, Created(pinged, o, st.reasons, monitor, r.env.now, r.env.writeFault).0, c, s);
    }
  }

  lemma ProcessedOneKeepsInv(db: Db, monitor: string, st: ReportStatus, r: Reading)
    requires Inv(db)
    ensures Inv(ProcessedOne(db, monitor, st, r).0) && RowsOk(db)
  {
    hide Inv, ProcessedOne, Evolves;
    InvRows(db);
    ProcessedOneEvolves(db, monitor, st, r);
    EvolvesInv(db, ProcessedOne(db, monitor, st, r).0);
  }

  lemma {:induction false} ProcessedPersists(db: Db, monitor: string, statuses: seq<ReportStatus>,
                                             readings: seq<Reading>, i: nat, c: string, s: string)
    requires Inv(db) && |readings| == |statuses| && i <= |statuses| && !Reports(statuses, c, s)
    ensures Persists(db, Processed(db, monitor, statuses, readings, i).0, c, s)
    decreases |statuses| - i
  {
    hide ProcessedOne, Inv, RowsOk, Persists;
    PersistsReflexive(db, c, s);
    if i < |statuses| {
      var (next, ok) := ProcessedOne(db, monitor, statuses[i], readings[i]);
      ProcessedOneKeepsInv(db, monitor, statuses[i], readings[i]);
      ProcessedOnePersists(db, monitor, statuses[i], readings[i], c, s);
      if ok {
        ProcessedPersists(next, monitor, statuses, readings, i + 1, c, s);
        PersistsTransitive(db, next, Processed(next, monitor, statuses, readings, i + 1).0, c, s);
      }
    }
  }

  /** A quiet event, if it is a check then one that comes late, ends no absent-report outage of the
      sub-component. */
  lemma EventPersists(db: Db, e: Event, c: string, s: string)
    requires Inv(db) && Quiet(e, c, s)
    requires e.AbsentCheck? ==> LateVisits(db, Targets(e.cfg.components), e.envs, c, s)
    ensures Persists(db, Step(db, e), c, s)
  {
    hide Inv, RowsOk, Processed, Checked, Created, Lookup, LateVisits, Persists;
    PersistsReflexive(db, c, s);
    InvRows(db);
    match e
    case MonitorReport(gate, account, monitor, statuses, readings) =>
      ProcessedPersists(db, monitor, statuses, readings, 0, c, s);
    case AbsentCheck(cfg, envs) =>
      CheckedPersists(db, Targets(cfg.components), envs, 0, c, s);
    case UserCreate(cfg, c', s', user, req, env) =>
      if req.start.Some? && Lookup(cfg, c', s').Some? {
        var o := UserOutage(c', s', user, req, Lookup(cfg, c', s').value.requiresConfirmation, env.now);
        CreatedPersists(db, o, [], user, env.now, env.writeFault, c, s);
      }
    case _ =>
      if e.UserPatch? || e.UserDelete? {
        EditPersists(db, e, c, s);
      }
  }

  lemma EditPersists(db: Db, e: Event, c: string, s: string)
    requires Quiet(e, c, s) && (e.UserPatch? || e.UserDelete?)
    ensures Persists(db, Step(db, e), c, s)
  {
    hide Lookup, Valid, Blank, IsValidSeverity, TrimSpace;
  }

  lemma {:induction false} CheckedPings(db: Db, targets: seq<Target>, envs: seq<Env>, k: nat)
    requires |envs| == |targets| && k <= |targets|
    ensures Checked(db, targets, envs, k).pings == db.pings
    decreases |targets| - k
  {
    if k < |targets| {
      CheckedOnePings(db, targets[k], envs[k]);
      hide CheckedOne;
      CheckedPings(CheckedOne(db, targets[k], envs[k]), targets, envs, k + 1);
    }
  }

  lemma CheckedOnePings(db: Db, t: Target, env: Env)
    ensures CheckedOne(db, t, env).pings == db.pings
  {
    hide Resolved, QueryOpen, EndsRows;
    if t.sub.monitoring.Some? {
      ResolvedPings(db, QueryOpen(db, t.component, t.sub.slug, DiscoveredFrom(ABSENT_SOURCE), env.order),
                    t.sub.monitoring.value.monitor, env);
    }
  }

  lemma {:induction false} ResolvedPings(db: Db, found: seq<Found>, user: string, env: Env)
    ensures Resolved(db, found, user, env).pings == db.pings
    decreases |found|
  {
    if found != [] {
      var id := found[0].id;
      ResolvedPings(Updated(db, id, found[0].row.(end := Some(env.now)), user, env.now, FaultOf(env, id)).0,
          found[1..], user, env);
    }
  }

  lemma QuietKeepsPing(db: Db, e: Event, c: string, s: string)
    requires Inv(db) && Quiet(e, c, s)
    ensures SamePing(db, Step(db, e), c, s)
  {
    hide Inv, Processed, Checked, UserCreated, UserPatched, UserDeleted, AbsentOpen;
    if e.AbsentCheck? {
      CheckedPings(db, Targets(e.cfg.components), e.envs, 0);
    } else {
      EventPersists(db, e, c, s);
    }
  }

  // ---------------------------------------------------------------- the deadline

  /** The event happens at `t` and, if it is a check, visits the sub-component with frequency `f`. */
  predicate Timed(e: Event, c: string, s: string, f: int, t: Time) {
    e.AbsentCheck? ==>
      var targets := Targets(e.cfg.components);
      forall i | 0 <= i < |targets| && At(targets[i], c, s) && Scheduled(targets[i]) ::
        Frequency(targets[i]) == f && e.envs[i].now == t
  }

  /** A check that visits the sub-component while the database works. */
  predicate Succeeds(e: Event, c: string, s: string) {
    && e.AbsentCheck?
    && var targets := Targets(e.cfg.components);
       exists i :: 0 <= i < |targets| && At(targets[i], c, s) && Scheduled(targets[i]) && NoFaults(e.envs[i])
  }

  /** A stretch of a run, with its clock, in which neither a ping nor a person intervenes. */
  predicate Silence(events: seq<Event>, clock: seq<Time>, c: string, s: string, f: int) {
    && |clock| == |events|
    && (forall i, j | 0 <= i <= j < |clock| :: clock[i] <= clock[j])
    && (forall i | 0 <= i < |events| :: Quiet(events[i], c, s) && Timed(events[i], c, s, f, clock[i]))
  }

  /** At `deadline` the last ping, if there is one, is at least `3 * f` old. */
  predicate Expires(db: Db, c: string, s: string, f: int, deadline: Time) {
    (c, s) in db.pings ==> db.pings[(c, s)] + 3 * f <= deadline
  }

  lemma {:induction false} SilenceKeepsPing(db: Db, events: seq<Event>, clock: seq<Time>, c: string, s: string,
                                            f: int, n: nat)
    requires Inv(db) && Silence(events, clock, c, s, f) && n <= |events|
    ensures SamePing(db, Run(db, events[..n]), c, s) && Inv(Run(db, events[..n]))
  {
    hide Step, Inv, Evolves;
    if n > 0 {
      assert events[..n][..n - 1] == events[..n - 1];
      SilenceKeepsPing(db, events, clock, c, s, f, n - 1);
      QuietKeepsPing(Run(db, events[..n - 1]), events[n - 1], c, s);
      StepEvolves(Run(db, events[..n - 1]), events[n - 1]);
      EvolvesInv(Run(db, events[..n - 1]), Run(db, events[..n]));
    }
  }

  lemma ExpiredVisits(db: Db, past: Db, e: Event, c: string, s: string, f: int, deadline: Time, t: Time)
    requires e.AbsentCheck? && Timed(e, c, s, f, t) && Expires(past, c, s, f, deadline) && deadline < t
    requires SamePing(past, db, c, s)
    ensures LateVisits(db, Targets(e.cfg.components), e.envs, c, s)
  {
  }

  lemma SuccessOpens(db: Db, e: Event, c: string, s: string, f: int, t: Time)
    requires Inv(db) && Succeeds(e, c, s) && Timed(e, c, s, f, t) && t != 0
    requires LateVisits(db, Targets(e.cfg.components), e.envs, c, s)
    ensures AbsentOpen(Step(db, e), c, s) != {}
  {
    hide Checked, Inv, AbsentOpen, LateVisits;
    var targets := Targets(e.cfg.components);
    var j :| 0 <= j < |targets| && At(targets[j], c, s) && Scheduled(targets[j]) && NoFaults(e.envs[j]);
    CheckedOpens(db, targets, e.envs, 0, j);
  }

  /** From the first successful check after the deadline on, an absent-report outage is open. */
  lemma {:induction false} StaysOpen(db: Db, events: seq<Event>, clock: seq<Time>, c: string, s: string, f: int,
                                     deadline: Time, i: nat, n: nat)
    requires Inv(db) && Silence(events, clock, c, s, f) && Expires(db, c, s, f, deadline)
    requires i < n <= |events| && Succeeds(events[i], c, s) && 0 <= deadline < clock[i]
    ensures AbsentOpen(Run(db, events[..n]), c, s) != {}
  {
    hide Step, Inv, Expires, AbsentOpen, Timed, Quiet, Succeeds, LateVisits;
    assert events[..n][..n - 1] == events[..n - 1];
    var now, last := Run(db, events[..n - 1]), events[n - 1];
    SilenceKeepsPing(db, events, clock, c, s, f, n - 1);
    if last.AbsentCheck? {
      ExpiredVisits(now, db, last, c, s, f, deadline, clock[n - 1]);
    }
    if i == n - 1 {
      assert last.AbsentCheck? by { SuccessIsCheck(last, c, s); }
      SuccessOpens(now, last, c, s, f, clock[i]);
    } else {
      StaysOpen(db, events, clock, c, s, f, deadline, i, n - 1);
      EventPersists(now, last, c, s);
    }
  }

  lemma SuccessIsCheck(e: Event, c: string, s: string)
    requires Succeeds(e, c, s)
    ensures e.AbsentCheck?
  {
  }

  /** Instants at most `gap` apart that start by `d + gap` and pass `d` do so within `gap`. */
  lemma {:induction false} FirstAfter(instants: seq<Time>, gap: int, d: Time) returns (j: nat)
    requires instants != [] && instants[0] <= d + gap && d < instants[|instants| - 1]
    requires forall i | 0 < i < |instants| :: instants[i] <= instants[i - 1] + gap
    ensures j < |instants| && d < instants[j] <= d + gap
  {
    if d < instants[0] {
      j := 0;
    } else {
      var k := FirstAfter(instants[1..], gap, d);
      j := k + 1;
    }
  }

  /** The deadline. Let the last ping expire at `deadline`, and let successful checks, the events
      `checks`, follow each other within `gap`, the first by `deadline + gap` and the last after the deadline.
      Unless a ping or a person intervenes, an absent-report outage is open after one of them that
      happens in (deadline, deadline + gap], and stays open. */
  lemma AbsentDeadline(db: Db, events: seq<Event>, clock: seq<Time>, checks: seq<nat>, c: string, s: string, f: int,
                       deadline: Time, gap: int)
    returns (j: nat)
    requires Inv(db) && Silence(events, clock, c, s, f) && Expires(db, c, s, f, deadline) && 0 <= deadline
    requires checks != [] && forall i | 0 <= i < |checks| :: checks[i] < |events| && Succeeds(events[checks[i]], c, s)
    requires clock[checks[0]] <= deadline + gap && deadline < clock[checks[|checks| - 1]]
    requires forall i | 0 < i < |checks| :: clock[checks[i]] <= clock[checks[i - 1]] + gap
    ensures j < |checks| && deadline < clock[checks[j]] <= deadline + gap
    ensures forall n | checks[j] < n <= |events| :: AbsentOpen(Run(db, events[..n]), c, s) != {}
  {
    assert |clock| == |events|;
    hide Inv, Silence, Expires, Succeeds, AbsentOpen, Run;
    j := FirstAfter(seq(|checks|, i requires 0 <= i < |checks| => clock[checks[i]]), gap, deadline);
    forall n | checks[j] < n <= |events| ensures AbsentOpen(Run(db, events[..n]), c, s) != {} {
      StaysOpen(db, events, clock, c, s, f, deadline, checks[j], n);
    }
  }

  // ---------------------------------------------------------------- no false alarms

  function BlamedIds(db: Db, c: string, s: string): set<nat> {
    set id | id in db.rows && Blamed(db.rows[id], c, s)
  }

  lemma ResolvedBlames(db: Db, c': string, s': string, src: Source, user: string, env: Env, c: string, s: string)
    ensures BlamedIds(Resolved(db, QueryOpen(db, c', s', src, env.order), user, env), c, s) == BlamedIds(db, c, s)
  {
    ResolvedOpen(db, c', s', src, user, env);
    hide Resolved, QueryOpen;
  }

  lemma CreatedBlames(db: Db, o: Outage, reasons: seq<Reason>, user: string, now: Time, fault: Fault, c: string,
                      s: string)
    requires !Blamed(o, c, s)
    ensures BlamedIds(Created(db, o, reasons, user, now, fault).0, c, s) <= BlamedIds(db, c, s)
  {
  }

  lemma CheckedOneBlames(db: Db, t: Target, env: Env, c: string, s: string)
    requires !(At(t, c, s) && Late(db, t, env))
    ensures BlamedIds(CheckedOne(db, t, env), c, s) <= BlamedIds(db, c, s)
  {
    hide Resolved, QueryOpen, Created, BlamedIds;
    if Scheduled(t) {
      var own := DiscoveredFrom(ABSENT_SOURCE);
      ResolvedBlames(db, t.component, t.sub.slug, own, t.sub.monitoring.value.monitor, env, c, s);
      if !At(t, c, s) {
        CreatedBlames(db, AbsentOutage(t.component, t.sub, env.now), [], ABSENT_CREATOR, env.now, env.writeFault, c, s);
      }
    }
  }

  lemma {:induction false} CheckedBlames(db: Db, targets: seq<Target>, envs: seq<Env>, k: nat, c: string, s: string)
    requires |envs| == |targets| && k <= |targets|
    requires forall i | 0 <= i < |targets| :: !(At(targets[i], c, s) && Late(db, targets[i], envs[i]))
    ensures BlamedIds(Checked(db, targets, envs, k), c, s) <= BlamedIds(db, c, s)
    decreases |targets| - k
  {
    hide CheckedOne, BlamedIds;
    if k < |targets| {
      CheckedOneBlames(db, targets[k], envs[k], c, s);
      CheckedOnePings(db, targets[k], envs[k]);
      CheckedBlames(CheckedOne(db, targets[k], envs[k]), targets, envs, k + 1, c, s);
    }
  }

  lemma ProcessedOneBlames(db: Db, monitor: string, st: ReportStatus, r: Reading, c: string, s: string)
    ensures BlamedIds(ProcessedOne(db, monitor, st, r).0, c, s) <= BlamedIds(db, c, s)
  {
    var pinged := Pinged(db, st.component, st.subComponent, r.env.now);
    assert BlamedIds(pinged, c, s) == BlamedIds(db, c, s);
    ProcessedOneIs(db, monitor, st, r);
    hide ProcessedOne, Resolved, QueryOpen, Created, BlamedIds, Lookup, Pinged;
    ResolvedBlames(pinged, st.component, st.subComponent, CreatedBy(monitor), monitor, r.env, c, s);
    var sub := Lookup(r.cfg, st.component, st.subComponent);
    if sub.Some? {
      var o := MonitorOutage(st, monitor, r.env.now, sub.value.requiresConfirmation);
      CreatedBlames(pinged, o, st.reasons, monitor, r.env.now, r.env.writeFault, c, s);
    }
  }

  lemma {:induction false} ProcessedBlames(db: Db, monitor: string, statuses: seq<ReportStatus>,
                                           readings: seq<Reading>, i: nat, c: string, s: string)
    requires |readings| == |statuses| && i <= |statuses|
    ensures BlamedIds(Processed(db, monitor, statuses, readings, i).0, c, s) <= BlamedIds(db, c, s)
    decreases |statuses| - i
  {
    hide ProcessedOne, BlamedIds;
    if i < |statuses| {
      ProcessedOneBlames(db, monitor, statuses[i], readings[i], c, s);
      var (next, ok) := ProcessedOne(db, monitor, statuses[i], readings[i]);
      if ok {
        ProcessedBlames(next, monitor, statuses, readings, i + 1, c, s);
      }
    }
  }

  /** The only two ways to such a row: a check that visits the sub-component when its ping is overdue
      or missing, or a person who goes by the checker's name and gives the checker's source. */
  predicate Culprit(db: Db, e: Event, c: string, s: string) {
    match e
    case AbsentCheck(cfg, envs) =>
      exists i :: 0 <= i < |envs| && At(Targets(cfg.components)[i], c, s)
          && Late(db, Targets(cfg.components)[i], envs[i])
    case UserCreate(_, c', s', user, req, _) =>
      (c', s') == (c, s) && user == ABSENT_CREATOR && req.discoveredFrom == Some(ABSENT_SOURCE)
    case _ => false
  }

  /** The same with the threshold and the names written out. */
  predicate CaughtOut(db: Db, e: Event, c: string, s: string) {
    if e.AbsentCheck? then
      exists i ::
        && 0 <= i < |e.envs|
        && Targets(e.cfg.components)[i].component == c && Targets(e.cfg.components)[i].sub.slug == s
        && var monitoring := Targets(e.cfg.components)[i].sub.monitoring;
           monitoring.Some? && monitoring.value.frequency.Some?
           && ((c, s) !in db.pings || e.envs[i].now > db.pings[(c, s)] + 3 * monitoring.value.frequency.value)
    else
      && e.UserCreate? && e.c == c && e.s == s
      && e.user == "dashboard" && e.req.discoveredFrom == Some("absent-monitored-component-report")
  }

  lemma CulpritCaughtOut(db: Db, e: Event, c: string, s: string)
    requires Culprit(db, e, c, s)
    ensures CaughtOut(db, e, c, s)
  {
    if e.AbsentCheck? {
      var targets := Targets(e.cfg.components);
      var i :| 0 <= i < |e.envs| && At(targets[i], c, s) && Late(db, targets[i], e.envs[i]);
      assert targets[i].component == c && targets[i].sub.slug == s;
    }
  }

  lemma UserCreateBlames(db: Db, cfg: Config, c': string, s': string, user: string, req: UpsertRequest, env: Env,
                         c: string, s: string)
    requires !((c', s') == (c, s) && user == ABSENT_CREATOR && req.discoveredFrom == Some(ABSENT_SOURCE))
    ensures BlamedIds(UserCreated(db, cfg, c', s', user, req, env).0, c, s) <= BlamedIds(db, c, s)
  {
    hide Created, Lookup, Valid, BlamedIds, TrimSpace;
    var sub := Lookup(cfg, c', s');
    if req.start.Some? && sub.Some? {
      var o := UserOutage(c', s', user, req, sub.value.requiresConfirmation, env.now);
      assert |ABSENT_SOURCE| > 0;
      CreatedBlames(db, o, [], user, env.now, env.writeFault, c, s);
    }
  }

  lemma StepBlames(db: Db, e: Event, c: string, s: string)
    requires !Culprit(db, e, c, s)
    ensures BlamedIds(Step(db, e), c, s) <= BlamedIds(db, c, s)
  {
    hide Processed, Checked, BlamedIds, UserCreated, UserPatched, UserDeleted, Late;
    match e
    case MonitorReport(gate, account, monitor, statuses, readings) =>
      ProcessedBlames(db, monitor, statuses, readings, 0, c, s);
    case AbsentCheck(cfg, envs) =>
      CheckedBlames(db, Targets(cfg.components), envs, 0, c, s);
    case UserCreate(cfg, c', s', user, req, env) =>
      UserCreateBlames(db, cfg, c', s', user, req, env, c, s);
    case _ =>
      EditBlames(db, e, c, s);
  }

  lemma EditBlames(db: Db, e: Event, c: string, s: string)
    requires e.UserPatch? || e.UserDelete?
    ensures BlamedIds(Step(db, e), c, s) <= BlamedIds(db, c, s)
  {
    hide Lookup, Valid, Blank, IsValidSeverity, TrimSpace;
  }

  /** Whoever is blamed was late: every absent-report outage a run adds goes back to a moment of it at
      which the ping was overdue or missing. Runs that never see an overdue ping add none. */
  lemma {:induction false} BlamedWasLate(db: Db, events: seq<Event>, c: string, s: string, id: nat) returns (i: nat)
    requires id in BlamedIds(Run(db, events), c, s) && id !in BlamedIds(db, c, s)
    ensures i < |events| && Culprit(Run(db, events[..i]), events[i], c, s)
    ensures id in BlamedIds(Run(db, events[..i + 1]), c, s) && id !in BlamedIds(Run(db, events[..i]), c, s)
    ensures CaughtOut(Run(db, events[..i]), events[i], c, s)
  {
    hide Step, Culprit, BlamedIds, CaughtOut;
    var n := |events| - 1;
    var now, last := Run(db, events[..n]), events[n];
    assert events[..n + 1] == events;
    if id in BlamedIds(now, c, s) {
      i := BlamedWasLate(db, events[..n], c, s, id);
      assert events[..n][..i] == events[..i] && events[..n][..i + 1] == events[..i + 1];
    } else {
      i := n;
      if !Culprit(now, last, c, s) {
        StepBlames(now, last, c, s);
      }
      CulpritCaughtOut(now, last, c, s);
    }
  }

  // ---------------------------------------------------------------- the ticker

  /** Checks that begin at `starts` and take `durations`: the first after three intervals, each later one
      within an interval of the one before, or within the time that one took if that is longer. */
  predicate Ticks(interval: Time, starts: seq<Time>, durations: seq<Time>) {
    && |starts| == |durations|
    && (starts != [] ==> starts[0] == 3 * interval)
    && forall i | 0 < i < |starts| ::
         starts[i - 1] + durations[i - 1] <= starts[i] <= starts[i - 1] + Max(interval, durations[i - 1])
  }

  /** `Start` until its context is cancelled: `durations[i]` is how long check `i` takes, and the result
      gives the instants, counted from the start, at which the checks begin. The ticker fires at every
      multiple of the interval and its channel holds one tick, so ticks are lost while a check runs. */
  method Start(interval: Time, durations: seq<Time>) returns (starts: seq<Time>)
    requires interval > 0 && forall i | 0 <= i < |durations| :: durations[i] >= 0
    ensures Ticks(interval, starts, durations)
    ensures starts != [] ==> starts[0] == 3 * interval
  {
    starts := [];
    var now, nextTick, buffered := 3 * interval, 4 * interval, true;
    for i := 0 to |durations|
      invariant |starts| == i
      invariant now < nextTick <= now + interval
      invariant i == 0 ==> now == 3 * interval
      invariant i > 0 ==> starts[0] == 3 * interval
      invariant i > 0 ==> starts[i - 1] + durations[i - 1] <= now <= starts[i - 1] + Max(interval, durations[i - 1])
      invariant forall j | 0 < j < i ::
                  starts[j - 1] + durations[j - 1] <= starts[j] <= starts[j - 1] + Max(interval, durations[j - 1])
    {
      starts := starts + [now];
      now := now + durations[i];
      if nextTick <= now {
        buffered := true;
        nextTick := AfterInstant(interval, nextTick, now);
      }
      if !buffered {
        now := nextTick;
        nextTick := nextTick + interval;
      }
      buffered := false;
    }
  }

  function Max(a: int, b: int): int {
    if a < b then b else a
  }

  /** The first instant of the ticker after `now`. */
  function AfterInstant(interval: Time, tick: Time, now: Time): (r: Time)
    requires interval > 0
    ensures now < r <= Max(tick, now + interval)
    ensures tick <= r
    decreases now - tick
  {
    if now < tick then tick else AfterInstant(interval, tick + interval, now)
  }

  /** Ticker and deadline together. The checker starts at `origin`; no check takes longer than `longest`; every
      check visits the sub-component while it runs, and the database works; and the deadline is no earlier than
      the end of the initial delay less one interval. Then, unless a ping or a person intervenes, an
      absent-report outage is open soon after the deadline and stays open: within the interval if checks take no
      time, within `interval + longest` if none takes longer than an interval. */
  lemma TickedDeadline(db: Db, events: seq<Event>, clock: seq<Time>, checks: seq<nat>, c: string, s: string, f: int,
                       deadline: Time, origin: Time, interval: Time, longest: Time,
                       starts: seq<Time>, durations: seq<Time>)
    returns (j: nat)
    requires Inv(db) && Silence(events, clock, c, s, f) && Expires(db, c, s, f, deadline) && 0 <= deadline
    requires Ticks(interval, starts, durations) && |checks| == |starts| && starts != []
    requires forall i | 0 <= i < |durations| :: durations[i] <= longest
    requires forall i | 0 <= i < |checks| :: checks[i] < |events| && Succeeds(events[checks[i]], c, s)
    requires forall i | 0 <= i < |checks| ::
               origin + starts[i] <= clock[checks[i]] <= origin + starts[i] + durations[i]
    requires origin + 3 * interval <= deadline + interval && deadline < clock[checks[|checks| - 1]]
    ensures j < |checks| && deadline < clock[checks[j]] <= deadline + Max(interval, longest) + longest
    ensures forall n | checks[j] < n <= |events| :: AbsentOpen(Run(db, events[..n]), c, s) != {}
  {
    assert |clock| == |events|;
    hide Inv, Silence, Expires, Succeeds, AbsentOpen, Run;
    forall i | 0 < i < |checks| ensures clock[checks[i]] <= clock[checks[i - 1]] + (Max(interval, longest) + longest) {
      assert starts[i] <= starts[i - 1] + Max(interval, longest);
    }
    j := AbsentDeadline(db, events, clock, checks, c, s, f, deadline, Max(interval, longest) + longest);
  }
}
