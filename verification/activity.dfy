/** The two notions of an active outage, and what becomes of an outage once it has ended. */
module Activity {
  import opened Base
  import opened Models
  import opened Configuration
  import opened Store
  import opened Audit
  import opened Effects
  import opened Report
  import opened Absent
  import opened Users
  import opened Runs

  /** `end_time IS NULL`, as the deduplicating queries see the table. */
  function OpenIds(db: Db): set<nat> {
    set id | id in db.rows && OpenEnded(db.rows[id])
  }

  /** `end_time IS NULL OR end_time > now`, as the status queries see it. */
  function ActiveIds(db: Db, now: Time): set<nat> {
    set id | id in db.rows && ActiveAt(db.rows[id], now)
  }

  /** The status queries see every outage the deduplicating ones see, and no other exactly when no
      end time lies in the future. */
  lemma ActivityAgrees(db: Db, now: Time)
    ensures OpenIds(db) <= ActiveIds(db, now)
    ensures OpenIds(db) == ActiveIds(db, now) <==>
            forall id | id in db.rows && db.rows[id].end.Some? :: db.rows[id].end.value <= now
  {
    if id :| id in db.rows && db.rows[id].end.Some? && db.rows[id].end.value > now {
      assert id in ActiveIds(db, now) && id !in OpenIds(db);
    }
  }

  /** The outage is gone or ended, under an identifier already handed out. */
  predicate Over(db: Db, id: nat) {
    id < db.nextId && (id in db.rows ==> db.rows[id].end.Some?)
  }

  /** Its row did not change, unless it was deleted. */
  predicate Kept(a: Db, b: Db, id: nat) {
    && a.nextId <= b.nextId
    && (id in b.rows ==> id in a.rows && b.rows[id] == a.rows[id])
  }

  lemma KeptTransitive(a: Db, b: Db, c: Db, id: nat)
    requires Kept(a, b, id) && Kept(b, c, id)
    ensures Kept(a, c, id)
  {
  }

  lemma StaysOver(a: Db, b: Db, id: nat)
    requires Over(a, id) && Kept(a, b, id)
    ensures Over(b, id)
  {
  }

  lemma KeptReflexive(a: Db, id: nat)
    ensures Kept(a, a, id)
  {
  }

  lemma ResolvedKeeps(db: Db, c: string, s: string, src: Source, user: string, env: Env, id: nat)
    requires Over(db, id)
    ensures Kept(db, Resolved(db, QueryOpen(db, c, s, src, env.order), user, env), id)
  {
    ResolvedOpen(db, c, s, src, user, env);
    hide Resolved, QueryOpen;
    assert id !in Open(db, c, s, src);
  }

  lemma CreatedKeeps(db: Db, o: Outage, reasons: seq<Reason>, user: string, now: Time, fault: Fault, id: nat)
    requires Over(db, id)
    ensures Kept(db, Created(db, o, reasons, user, now, fault).0, id)
  {
  }

  lemma ProcessedOneKeepsRow(db: Db, monitor: string, st: ReportStatus, r: Reading, id: nat)
    requires Over(db, id)
    ensures Kept(db, ProcessedOne(db, monitor, st, r).0, id)
  {
    var pinged := Pinged(db, st.component, st.subComponent, r.env.now);
    assert Over(pinged, id) && Kept(db, pinged, id);
    ProcessedOneIs(db, monitor, st, r);
    hide ProcessedOne, Created, Resolved, QueryOpen, Lookup, Kept, Over, Pinged, MonitorOutage;
    KeptReflexive(db, id);
    var c, s, own := st.component, st.subComponent, CreatedBy(monitor);
    ResolvedKeeps(pinged, c, s, own, monitor, r.env, id);
    KeptTransitive(db, pinged, Resolved(pinged, QueryOpen(pinged, c, s, own, r.env.order), monitor, r.env), id);
    var sub := Lookup(r.cfg, c, s);
    if sub.Some? {
      var o := MonitorOutage(st, monitor, r.env.now, sub.value.requiresConfirmation);
      CreatedKeeps(pinged, o, st.reasons, monitor, r.env.now, r.env.writeFault, id);
      KeptTransitive(db, pinged, Created(pinged, o, st.reasons, monitor, r.env.now, r.env.writeFault).0, id);
    }
  }

  lemma {:induction false} ProcessedKeepsRow(db: Db, monitor: string, statuses: seq<ReportStatus>,
                                             readings: seq<Reading>, i: nat, id: nat)
    requires |readings| == |statuses| && i <= |statuses| && Over(db, id)
    ensures Kept(db, Processed(db, monitor, statuses, readings, i).0, id)
    decreases |statuses| - i
  {
    hide ProcessedOne, Kept, Over;
    KeptReflexive(db, id);
    if i < |statuses| {
      var (next, ok) := ProcessedOne(db, monitor, statuses[i], readings[i]);
      ProcessedOneKeepsRow(db, monitor, statuses[i], readings[i], id);
      StaysOver(db, next, id);
      if ok {
        ProcessedKeepsRow(next, monitor, statuses, readings, i + 1, id);
        KeptTransitive(db, next, Processed(next, monitor, statuses, readings, i + 1).0, id);
      }
    }
  }

  lemma CheckedOneKeepsRow(db: Db, t: Target, env: Env, id: nat)
    requires Over(db, id)
    ensures Kept(db, CheckedOne(db, t, env), id)
  {
    hide Created, Resolved, QueryOpen;
    if t.sub.monitoring.Some? {
      ResolvedKeeps(db, t.component, t.sub.slug, DiscoveredFrom(ABSENT_SOURCE), t.sub.monitoring.value.monitor, env,
          id);
      CreatedKeeps(db, AbsentOutage(t.component, t.sub, env.now), [], ABSENT_CREATOR, env.now, env.writeFault, id);
    }
  }

  lemma {:induction false} CheckedKeepsRow(db: Db, targets: seq<Target>, envs: seq<Env>, k: nat, id: nat)
    requires |envs| == |targets| && k <= |targets| && Over(db, id)
    ensures Kept(db, Checked(db, targets, envs, k), id)
    decreases |targets| - k
  {
    hide CheckedOne, Kept, Over;
    KeptReflexive(db, id);
    if k < |targets| {
      var next := CheckedOne(db, targets[k], envs[k]);
      CheckedOneKeepsRow(db, targets[k], envs[k], id);
      StaysOver(db, next, id);
      CheckedKeepsRow(next, targets, envs, k + 1, id);
      KeptTransitive(db, next, Checked(next, targets, envs, k + 1), id);
    }
  }

  predicate Patches(e: Event, id: nat) {
    e.UserPatch? && e.id == id
  }

  lemma UserCreateKeepsRow(db: Db, cfg: Config, c: string, s: string, user: string, req: UpsertRequest, env: Env,
                           id: nat)
    requires Over(db, id)
    ensures Kept(db, UserCreated(db, cfg, c, s, user, req, env).0, id)
  {
    hide Created, Lookup, Valid, UserOutage;
    KeptReflexive(db, id);
    if req.start.Some? && Lookup(cfg, c, s).Some? {
      var o := UserOutage(c, s, user, req, Lookup(cfg, c, s).value.requiresConfirmation, env.now);
      CreatedKeeps(db, o, [], user, env.now, env.writeFault, id);
    }
  }

  lemma EditKeepsRow(db: Db, e: Event, id: nat)
    requires Over(db, id) && !Patches(e, id) && (e.UserPatch? || e.UserDelete?)
    ensures Kept(db, Step(db, e), id)
  {
    hide Lookup, Valid, IsValidSeverity, Patched, Rounded;
  }

  lemma StepKeepsRow(db: Db, e: Event, id: nat)
    requires Over(db, id) && !Patches(e, id)
    ensures Kept(db, Step(db, e), id)
  {
    hide Processed, Checked, UserCreated, UserPatched, UserDeleted, Over, Kept, Patches;
    KeptReflexive(db, id);
    match e
    case MonitorReport(gate, account, monitor, statuses, readings) =>
      ProcessedKeepsRow(db, monitor, statuses, readings, 0, id);
    case AbsentCheck(cfg, envs) =>
      CheckedKeepsRow(db, Targets(cfg.components), envs, 0, id);
    case UserCreate(cfg, c, s, user, req, env) =>
      UserCreateKeepsRow(db, cfg, c, s, user, req, env, id);
    case _ =>
      EditKeepsRow(db, e, id);
  }

  /** An outage that is over is only ever changed by a person patching it. */
  lemma {:induction false} EndedStays(db: Db, events: seq<Event>, id: nat)
    requires Over(db, id)
    requires forall e | e in events :: !Patches(e, id)
    ensures Kept(db, Run(db, events), id)
  {
    hide Step, Kept, Over;
    KeptReflexive(db, id);
    if events != [] {
      var earlier, last := events[..|events| - 1], events[|events| - 1];
      assert last in events;
      EndedStays(db, earlier, id);
      StaysOver(db, Run(db, earlier), id);
      StepKeepsRow(Run(db, earlier), last, id);
      KeptTransitive(db, Run(db, earlier), Run(db, events), id);
    }
  }

  /** An outage its monitor resolved at `t` is, whatever happens afterwards short of a person
      patching it, in no active query at any time from `t` on. */
  lemma ResolvedNeverActive(db: Db, c: string, s: string, src: Source, user: string, env: Env, id: nat,
                            events: seq<Event>)
    requires RowsOk(db)
    requires id in Open(db, c, s, src) && Endable(db.rows[id], id, env)
    requires forall e | e in events :: !Patches(e, id)
    ensures var later := Run(Resolved(db, QueryOpen(db, c, s, src, env.order), user, env), events);
            id in later.rows ==> later.rows[id] == EndedAt(db.rows[id], env.now)
                                 && later.rows[id].end == Some(Truncate(env.now))
                                 && forall now | env.now <= now :: !ActiveAt(later.rows[id], now)
  {
    var resolved := Resolved(db, QueryOpen(db, c, s, src, env.order), user, env);
    ResolvedOpen(db, c, s, src, user, env);
    hide Resolved, QueryOpen;
    assert Over(resolved, id);
    EndedStays(resolved, events, id);
    hide Run;
  }

  // ---------------------------------------------------------------- rows that start at Go's zero time

  /** A stored row passes validation as it stands exactly if its start is not Go's zero time. */
  lemma WritableRows(o: Outage)
    requires StoredRow(o)
    ensures Valid(o) <==> o.start != 0
  {
  }

  /** An accepted row is stored as one that does not validate, since truncation moves its start to Go's
      zero time, exactly if it starts within the first second after that. */
  lemma FrozenRows(o: Outage, now: Time)
    requires Valid(o)
    ensures !Valid(Stamped(o, now)) <==> 0 < o.start < SECOND
  {
    assert Truncate(o.start) == 0 <==> 0 <= o.start < SECOND;
  }

  /** So the automatic writers can end a stored row exactly if its start is not Go's zero time. */
  lemma ResolveAccepted(db: Db, id: nat, user: string, env: Env)
    requires RowsOk(db) && id in db.rows && NoFaults(env)
    ensures Updated(db, id, db.rows[id].(end := Some(env.now)), user, env.now, FaultOf(env, id)).1
            <==> db.rows[id].start != 0
  {
    WritableRows(db.rows[id]);
    hide Blank;
  }

  /** A person can: a PATCH of a stored row is accepted exactly if the severity it names is known, the start
      it names, or else the stored one, is not Go's zero time, and the description it names is not blank. */
  lemma PatchAccepted(db: Db, cfg: Config, c: string, s: string, id: nat, user: string, req: UpsertRequest, env: Env)
    requires RowsOk(db) && Located(db, id, c, s) && Lookup(cfg, c, s).Some? && NoFaults(env)
    ensures UserPatched(db, cfg, c, s, id, user, req, env).1 == Done <==>
            && (req.severity.Some? ==> Known(req.severity.value))
            && GetOr(req.start, db.rows[id].start) != 0
            && (req.description.Some? ==> !Blank(req.description.value))
    ensures UserPatched(db, cfg, c, s, id, user, req, env).1 in {Done, BadRequest}
  {
    hide Blank, TrimSpace, Lookup;
    if req.description.Some? {
      TrimmedBlank(req.description.value);
    }
  }

  /** A creation one nanosecond after Go's zero time. */
  const EARLY: UpsertRequest := UpsertRequest(Some(SeverityDown), Some(1), None, Some("x"), Some("x"), None, None)

  function NewStart(start: Option<Time>): UpsertRequest {
    UpsertRequest(None, start, None, None, None, None, None)
  }

  lemma EarlyIsText()
    ensures !Blank(TrimSpace("x"))
  {
    assert "x"[0] in "x";
    TrimmedBlank("x");
  }

  lemma EarlyRow(c: string, s: string, user: string, requiresConfirmation: bool, now: Time)
    requires user != ""
    ensures var o := UserOutage(c, s, user, EARLY, requiresConfirmation, now);
            var row := Stamped(o, now);
            Valid(o) && row.start == 0 && row.component == c && row.subComponent == s
  {
    EarlyIsText();
    hide Blank, TrimSpace;
    assert Truncate(1) == 0;
  }

  lemma EarlyCreated(db: Db, cfg: Config, c: string, s: string, user: string, env: Env)
    requires RowsOk(db) && Lookup(cfg, c, s).Some? && NoFaults(env) && user != ""
    ensures var (after, answer) := UserCreated(db, cfg, c, s, user, EARLY, env);
            && answer == Done && RowsOk(after)
            && Located(after, db.nextId, c, s) && after.rows[db.nextId].start == 0
  {
    hide Valid, RowsOk, Lookup, UserOutage, Stamped, Blank, TrimSpace;
    var confirm := Lookup(cfg, c, s).value.requiresConfirmation;
    var o := UserOutage(c, s, user, EARLY, confirm, env.now);
    EarlyRow(c, s, user, confirm, env.now);
    CreatedRowsOk(db, o, [], user, env.now, env.writeFault);
    assert EARLY.start == Some(1);
  }

  /** The creation is accepted; afterwards no automatic writer can end the outage, and a PATCH is refused
      if it names no start and accepted if it names another one. */
  lemma EarlyOutage(db: Db, cfg: Config, c: string, s: string, user: string, env: Env)
    requires RowsOk(db) && Lookup(cfg, c, s).Some? && NoFaults(env) && user != ""
    ensures var (after, answer) := UserCreated(db, cfg, c, s, user, EARLY, env);
            var id := db.nextId;
            && answer == Done && Located(after, id, c, s)
            && !Updated(after, id, after.rows[id].(end := Some(env.now)), user, env.now, FaultOf(env, id)).1
            && UserPatched(after, cfg, c, s, id, user, NewStart(None), env).1 == BadRequest
            && UserPatched(after, cfg, c, s, id, user, NewStart(Some(SECOND)), env).1 == Done
  {
    EarlyCreated(db, cfg, c, s, user, env);
    var after := UserCreated(db, cfg, c, s, user, EARLY, env).0;
    hide Lookup, RowsOk, UserCreated, UserPatched, Updated;
    ResolveAccepted(after, db.nextId, user, env);
    PatchAccepted(after, cfg, c, s, db.nextId, user, NewStart(None), env);
    PatchAccepted(after, cfg, c, s, db.nextId, user, NewStart(Some(SECOND)), env);
  }
}
