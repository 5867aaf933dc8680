/** No duplicate open outages: monitor reports and absent-report checks never add a second one. */
module Deduplication {
  import opened Base
  import opened Models
  import opened Configuration
  import opened Store
  import opened Audit
  import opened Effects
  import opened Report
  import opened Absent
  import opened Users
  import opened Runs

  /** The keys under which a report batch does not duplicate: every creator, since a monitor looks for its
      own outages, and every source but the one that all monitors share. */
  predicate ReportDeduplicates(src: Source) {
    src != DiscoveredFrom(COMPONENT_MONITOR)
  }

  /** The keys under which the checker does not duplicate: every source, and every creator but itself, since
      it looks for outages of its source and writes as "dashboard". */
  predicate CheckDeduplicates(src: Source) {
    src != CreatedBy(ABSENT_CREATOR)
  }

  predicate Deduplicated(src: Source) {
    ReportDeduplicates(src) && CheckDeduplicates(src)
  }

  function OpenCount(db: Db, c: string, s: string, src: Source): nat {
    |Open(db, c, s, src)|
  }

  /** Going from `a` to `b` opened nothing under the key, or left at most one outage open. */
  predicate Tame(a: Db, b: Db, c: string, s: string, src: Source) {
    Open(b, c, s, src) <= Open(a, c, s, src) || OpenCount(b, c, s, src) <= 1
  }

  lemma TameCount(a: Db, b: Db, c: string, s: string, src: Source)
    requires Tame(a, b, c, s, src)
    ensures OpenCount(b, c, s, src) <= AtLeastOne(OpenCount(a, c, s, src))
  {
    if Open(b, c, s, src) <= Open(a, c, s, src) {
      SubsetCount(Open(b, c, s, src), Open(a, c, s, src));
    }
  }

  lemma TameReflexive(a: Db, c: string, s: string, src: Source)
    ensures Tame(a, a, c, s, src)
  {
  }

  lemma TameTransitive(x: Db, y: Db, z: Db, c: string, s: string, src: Source)
    requires Tame(x, y, c, s, src) && Tame(y, z, c, s, src)
    ensures Tame(x, z, c, s, src)
  {
    if Open(z, c, s, src) <= Open(y, c, s, src) {
      SubsetCount(Open(z, c, s, src), Open(y, c, s, src));
    }
  }

  lemma ResolvedShrinks(db: Db, c': string, s': string, own: Source, user: string, env: Env,
                        c: string, s: string, src: Source)
    ensures Open(Resolved(db, QueryOpen(db, c', s', own, env.order), user, env), c, s, src) <= Open(db, c, s, src)
  {
    ResolvedOpen(db, c', s', own, user, env);
    hide Resolved, QueryOpen;
  }

  /** A committed creation opens its own row, under the keys that row has. */
  lemma CreatedOpens(db: Db, o: Outage, reasons: seq<Reason>, user: string, now: Time, fault: Fault,
                     c: string, s: string, src: Source)
    requires RowsOk(db)
    ensures var (after, id) := Created(db, o, reasons, user, now, fault);
            var added := if id.Some? && OpenRow(o, c, s, src) then {db.nextId} else {};
            Open(after, c, s, src) == Open(db, c, s, src) + added
  {
  }

  lemma PingedOpen(db: Db, c': string, s': string, now: Time, c: string, s: string, src: Source)
    ensures Open(Pinged(db, c', s', now), c, s, src) == Open(db, c, s, src)
    ensures RowsOk(db) ==> RowsOk(Pinged(db, c', s', now))
  {
  }

  lemma ProcessedOneTame(db: Db, monitor: string, st: ReportStatus, r: Reading, c: string, s: string, src: Source)
    requires RowsOk(db) && ReportDeduplicates(src)
    ensures Tame(db, ProcessedOne(db, monitor, st, r).0, c, s, src)
  {
    hide Created, Resolved, QueryOpen, RowsOk, Pinged, Lookup, Valid, Open;
    var pinged := Pinged(db, st.component, st.subComponent, r.env.now);
    PingedOpen(db, st.component, st.subComponent, r.env.now, c, s, src);
    var own := CreatedBy(monitor);
    QueryLoads(pinged, st.component, st.subComponent, own, r.env.order);
    ResolvedShrinks(pinged, st.component, st.subComponent, own, monitor, r.env, c, s, src);
    var sub := Lookup(r.cfg, st.component, st.subComponent);
    if sub.Some? {
      var o := MonitorOutage(st, monitor, r.env.now, sub.value.requiresConfirmation);
      CreatedOpens(pinged, o, st.reasons, monitor, r.env.now, r.env.writeFault, c, s, src);
    }
  }

  lemma ProcessedOneKeeps(db: Db, monitor: string, st: ReportStatus, r: Reading, c: string, s: string, src: Source)
    requires Inv(db) && ReportDeduplicates(src)
    ensures var next := ProcessedOne(db, monitor, st, r).0;
            Inv(next) && Tame(db, next, c, s, src)
  {
    hide Inv, ProcessedOne, Tame, Evolves, ReportDeduplicates;
    InvRows(db);
    ProcessedOneTame(db, monitor, st, r, c, s, src);
    ProcessedOneEvolves(db, monitor, st, r);
    EvolvesInv(db, ProcessedOne(db, monitor, st, r).0);
  }

  lemma {:induction false} ProcessedTame(db: Db, monitor: string, statuses: seq<ReportStatus>, readings: seq<Reading>,
                                         i: nat, c: string, s: string, src: Source)
    requires |readings| == |statuses| && i <= |statuses|
    requires Inv(db) && ReportDeduplicates(src)
    ensures Tame(db, Processed(db, monitor, statuses, readings, i).0, c, s, src)
    decreases |statuses| - i
  {
    hide ProcessedOne, Tame, Inv, ReportDeduplicates;
    TameReflexive(db, c, s, src);
    if i < |statuses| {
      var (next, ok) := ProcessedOne(db, monitor, statuses[i], readings[i]);
      ProcessedOneKeeps(db, monitor, statuses[i], readings[i], c, s, src);
      if ok {
        ProcessedTame(next, monitor, statuses, readings, i + 1, c, s, src);
        TameTransitive(db, next, Processed(next, monitor, statuses, readings, i + 1).0, c, s, src);
      }
    }
  }

  lemma CheckedOneTame(db: Db, t: Target, env: Env, c: string, s: string, src: Source)
    requires RowsOk(db) && CheckDeduplicates(src)
    ensures Tame(db, CheckedOne(db, t, env), c, s, src)
  {
    hide Created, Resolved, QueryOpen, RowsOk, Open, Overdue;
    if t.sub.monitoring.Some? {
      var own := DiscoveredFrom(ABSENT_SOURCE);
      QueryLoads(db, t.component, t.sub.slug, own, env.order);
      ResolvedShrinks(db, t.component, t.sub.slug, own, t.sub.monitoring.value.monitor, env, c, s, src);
      CreatedOpens(db, AbsentOutage(t.component, t.sub, env.now), [], ABSENT_CREATOR, env.now, env.writeFault, c, s,
          src);
    }
  }

  lemma CheckedOneKeeps(db: Db, t: Target, env: Env, c: string, s: string, src: Source)
    requires Inv(db) && CheckDeduplicates(src)
    ensures var next := CheckedOne(db, t, env);
            Inv(next) && Tame(db, next, c, s, src)
  {
    hide Inv, CheckedOne, Tame, Evolves, CheckDeduplicates;
    InvRows(db);
    CheckedOneTame(db, t, env, c, s, src);
    CheckedOneEvolves(db, t, env);
    EvolvesInv(db, CheckedOne(db, t, env));
  }

  lemma {:induction false} CheckedTame(db: Db, targets: seq<Target>, envs: seq<Env>, k: nat, c: string, s: string,
                                       src: Source)
    requires |envs| == |targets| && k <= |targets|
    requires Inv(db) && CheckDeduplicates(src)
    ensures Tame(db, Checked(db, targets, envs, k), c, s, src)
    decreases |targets| - k
  {
    hide CheckedOne, Tame, Inv, CheckDeduplicates;
    TameReflexive(db, c, s, src);
    if k < |targets| {
      var next := CheckedOne(db, targets[k], envs[k]);
      CheckedOneKeeps(db, targets[k], envs[k], c, s, src);
      CheckedTame(next, targets, envs, k + 1, c, s, src);
      TameTransitive(db, next, Checked(next, targets, envs, k + 1), c, s, src);
    }
  }

  predicate CreatesUnder(user: string, req: UpsertRequest, src: Source) {
    match src
    case CreatedBy(name) => user == name
    case DiscoveredFrom(name) => req.discoveredFrom == Some(name)
  }

  /** The requests through which a person can open an outage under the key: creating one under it,
      or clearing the end time of one of that sub-component. */
  function Admissions(e: Event, c: string, s: string, src: Source): nat {
    match e
    case UserCreate(_, c', s', user, req, _) =>
      if c' == c && s' == s && CreatesUnder(user, req, src) then 1 else 0
    case UserPatch(_, c', s', _, _, req, _) =>
      if c' == c && s' == s && req.end == Some(None) then 1 else 0
    case _ => 0
  }

  function TotalAdmissions(events: seq<Event>, c: string, s: string, src: Source): nat {
    if events == [] then
      0
    else
      TotalAdmissions(events[..|events| - 1], c, s, src) + Admissions(events[|events| - 1], c, s, src)
  }

  /** What a patch does to the set of open outages: it can close its outage, and it opens it exactly
      when that outage had ended and the request clears the end. */
  lemma PatchedOpens(db: Db, cfg: Config, c': string, s': string, id: nat, user: string, req: UpsertRequest, env: Env,
                     c: string, s: string, src: Source)
    ensures var (after, answer) := UserPatched(db, cfg, c', s', id, user, req, env);
            var before := Open(db, c, s, src);
            var open := Open(after, c, s, src);
            && open <= before + {id}
            && before <= open + {id}
            && (id in open && id !in before <==>
                  && answer == Done
                  && c' == c && s' == s && From(db.rows[id], src)
                  && db.rows[id].end.Some? && req.end == Some(None))
  {
    hide Lookup, Valid, IsValidSeverity, TrimSpace;
  }

  lemma AddedCount(a: set<nat>, b: set<nat>, id: nat)
    requires a <= b + {id}
    ensures |a| <= |b| + 1
  {
    SubsetCount(a, b + {id});
  }

  /** What a person's creation does to the set of open outages. */
  lemma UserCreatedOpens(db: Db, cfg: Config, c': string, s': string, user: string, req: UpsertRequest, env: Env,
                         c: string, s: string, src: Source)
    requires RowsOk(db)
    ensures var (after, answer) := UserCreated(db, cfg, c', s', user, req, env);
            var added := answer == Done && c' == c && s' == s && CreatesUnder(user, req, src);
            Open(after, c, s, src) == Open(db, c, s, src) + (if added then {db.nextId} else {})
  {
    var sub := Lookup(cfg, c', s');
    hide Lookup, Open, RowsOk, UserOutage, OpenRow, Stamped, CreatesUnder;
    if sub.Some? && req.start.Some? {
      var o := UserOutage(c', s', user, req, sub.value.requiresConfirmation, env.now);
      UserOutageKey(c', s', user, req, sub.value.requiresConfirmation, env.now, c, s, src);
      CreatedOpens(db, o, [], user, env.now, env.writeFault, c, s, src);
      hide Valid;
    }
  }

  lemma UserOutageKey(c': string, s': string, user: string, req: UpsertRequest, requiresConfirmation: bool, now: Time,
                      c: string, s: string, src: Source)
    requires req.start.Some?
    ensures var o := UserOutage(c', s', user, req, requiresConfirmation, now);
            Valid(o) ==> (OpenRow(o, c, s, src) <==> c' == c && s' == s && CreatesUnder(user, req, src))
  {
    hide Blank, TrimSpace;
  }

  lemma UserCreateCount(db: Db, e: Event, c: string, s: string, src: Source)
    requires RowsOk(db) && e.UserCreate?
    ensures OpenCount(Step(db, e), c, s, src) <= OpenCount(db, c, s, src) + Admissions(e, c, s, src)
  {
    UserCreatedOpens(db, e.cfg, e.c, e.s, e.user, e.req, e.env, c, s, src);
    hide UserCreated, Open, RowsOk;
    var before, open := Open(db, c, s, src), Open(Step(db, e), c, s, src);
    if open != before {
      AddedCount(open, before, db.nextId);
    }
  }

  lemma UserEditCount(db: Db, e: Event, c: string, s: string, src: Source)
    requires e.UserPatch? || e.UserDelete?
    ensures OpenCount(Step(db, e), c, s, src) <= OpenCount(db, c, s, src) + Admissions(e, c, s, src)
  {
    var before, open := Open(db, c, s, src), Open(Step(db, e), c, s, src);
    if e.UserPatch? {
      PatchedOpens(db, e.cfg, e.c, e.s, e.id, e.user, e.req, e.env, c, s, src);
      hide UserPatched, Open;
      if open <= before {
        SubsetCount(open, before);
      } else {
        AddedCount(open, before, e.id);
      }
    } else {
      SubsetCount(open, before);
    }
  }

  lemma StepCount(db: Db, e: Event, c: string, s: string, src: Source)
    requires Inv(db) && Deduplicated(src)
    ensures OpenCount(Step(db, e), c, s, src) <= AtLeastOne(OpenCount(db, c, s, src)) + Admissions(e, c, s, src)
  {
    match e {
      case MonitorReport(gate, account, monitor, statuses, readings) =>
        ProcessedTame(db, monitor, statuses, readings, 0, c, s, src);
        hide Processed;
        TameCount(db, Step(db, e), c, s, src);
      case AbsentCheck(cfg, envs) =>
        CheckedTame(db, Targets(cfg.components), envs, 0, c, s, src);
        hide Checked;
        TameCount(db, Step(db, e), c, s, src);
      case UserCreate(_, _, _, _, _, _) =>
        UserCreateCount(db, e, c, s, src);
      case _ =>
        UserEditCount(db, e, c, s, src);
    }
  }

  function AtLeastOne(n: nat): nat {
    if n > 1 then n else 1
  }

  /** Over every run from a state `db` of a run, the number of open outages per sub-component and key, in
      particular per monitor and for the absent source, exceeds max(1, what it was) by at most the
      number of requests by which people opened one. Without such requests one open outage stays one,
      and none becomes at most one. */
  lemma {:induction false} NoDuplicates(db: Db, events: seq<Event>, c: string, s: string, src: Source)
    requires Inv(db) && Deduplicated(src)
    ensures OpenCount(Run(db, events), c, s, src)
         <= AtLeastOne(OpenCount(db, c, s, src)) + TotalAdmissions(events, c, s, src)
  {
    if events != [] {
      var earlier := events[..|events| - 1];
      NoDuplicates(db, earlier, c, s, src);
      RunEvolves(db, earlier);
      StepCount(Run(db, earlier), events[|events| - 1], c, s, src);
    }
  }

  /** Why a monitor named like the checker is left out: the checker looks for outages of its source
      but writes them under its name, so a late visit adds one to whatever that monitor has open. */
  lemma SharedNameDuplicates(db: Db, t: Target, env: Env)
    requires RowsOk(db) && NoFaults(env) && env.now != 0
    requires t.sub.monitoring.Some? && t.sub.monitoring.value.frequency.Some?
    requires Overdue(db, t.component, t.sub.slug, t.sub.monitoring.value.frequency.value, env.now)
    requires Open(db, t.component, t.sub.slug, DiscoveredFrom(ABSENT_SOURCE)) == {}
    ensures OpenCount(CheckedOne(db, t, env), t.component, t.sub.slug, CreatedBy(ABSENT_CREATOR))
         == OpenCount(db, t.component, t.sub.slug, CreatedBy(ABSENT_CREATOR)) + 1
  {
    var c, s := t.component, t.sub.slug;
    var o := AbsentOutage(c, t.sub, env.now);
    AbsentIsText();
    QueryLoads(db, c, s, DiscoveredFrom(ABSENT_SOURCE), env.order);
    CreatedOpens(db, o, [], ABSENT_CREATOR, env.now, env.writeFault, c, s, CreatedBy(ABSENT_CREATOR));
    assert db.nextId !in Open(db, c, s, CreatedBy(ABSENT_CREATOR));
    hide Blank, RowsOk, Open, QueryOpen;
    assert Created(db, o, [], ABSENT_CREATOR, env.now, env.writeFault).1.Some?;
    hide Created;
  }

  /** In terms of rows: a run from the empty database in which nobody opens outages by hand has at most one open
      outage per sub-component and monitor, and at most one from the absent source. */
  lemma NoTwoOpen(events: seq<Event>, c: string, s: string, src: Source, id: nat, other: nat)
    requires Deduplicated(src) && TotalAdmissions(events, c, s, src) == 0
    requires var rows := Run(EMPTY, events).rows;
             && id in rows && other in rows
             && rows[id].component == rows[other].component == c
             && rows[id].subComponent == rows[other].subComponent == s
             && rows[id].end == rows[other].end == None
             && (match src
                 case CreatedBy(name) => rows[id].createdBy == rows[other].createdBy == name
                 case DiscoveredFrom(name) => rows[id].discoveredFrom == rows[other].discoveredFrom == name)
    ensures id == other
  {
    EmptyInv();
    NoDuplicates(EMPTY, events, c, s, src);
    var db := Run(EMPTY, events);
    hide Run, Inv, TotalAdmissions;
    assert Open(EMPTY, c, s, src) == {};
    if id != other {
      assert {id, other} <= Open(db, c, s, src);
      SubsetCount({id, other}, Open(db, c, s, src));
    }
  }
}
