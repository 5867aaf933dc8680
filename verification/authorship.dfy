/** pkg/types/models.go: whom the audit log names. Every entry that an event adds carries the user on whose
    behalf it was written. */
module Authorship {
  import opened Base
  import opened Models
  import opened Configuration
  import opened Store
  import opened Report
  import opened Absent
  import opened Users
  import opened Runs

  /** An automatic writer: a monitor, or the checker on its round over these targets. */
  datatype Writer = Monitor(name: string) | Checker(targets: seq<Target>)

  /** The checker creates under its own name and resolves in the name of the sub-component's monitor. */
  predicate Signed(e: AuditEntry, writer: Writer) {
    match writer
    case Monitor(name) => e.user == name && e.op != Delete
    case Checker(targets) =>
      || (e.op == Create && e.user == ABSENT_CREATOR)
      || (e.op == Update && e.before.Some? && ResolvedFor(targets, e.before.value.row, e.user))
  }

  /** The outage is of a sub-component that this monitor is configured for. */
  predicate ResolvedFor(targets: seq<Target>, row: Outage, user: string) {
    exists t ::
      && t in targets && t.component == row.component && t.sub.slug == row.subComponent
      && t.sub.monitoring.Some? && t.sub.monitoring.value.monitor == user
  }

  /** `b` has more entries than `a`, all of them the writer's. */
  predicate Adds(a: Db, b: Db, writer: Writer) {
    a.audit <= b.audit && forall i | |a.audit| <= i < |b.audit| :: Signed(b.audit[i], writer)
  }

  lemma AddsNothing(a: Db, b: Db, writer: Writer)
    requires a.audit == b.audit
    ensures Adds(a, b, writer)
  {
  }

  lemma AddsOne(a: Db, b: Db, e: AuditEntry, writer: Writer)
    requires b.audit == a.audit + [e] && Signed(e, writer)
    ensures Adds(a, b, writer)
  {
  }

  lemma AddsMore(a: Db, b: Db, c: Db, writer: Writer)
    requires Adds(a, b, writer) && Adds(b, c, writer)
    ensures Adds(a, c, writer)
  {
    hide Signed;
    assert forall i | 0 <= i < |b.audit| :: c.audit[i] == b.audit[i];
  }

  lemma CreatedAdds(db: Db, o: Outage, reasons: seq<Reason>, user: string, now: Time, fault: Fault, writer: Writer)
    requires writer == Monitor(user) || (writer.Checker? && user == ABSENT_CREATOR)
    ensures Adds(db, Created(db, o, reasons, user, now, fault).0, writer)
  {
    AtomicCreation(db, o, reasons, user, now, fault);
    var after := Created(db, o, reasons, user, now, fault).0;
    hide Created, Adds;
    if after.audit == db.audit {
      AddsNothing(db, after, writer);
    } else {
      AddsOne(db, after, after.audit[|db.audit|], writer);
    }
  }

  /** The writer may resolve outages of this sub-component in this name. */
  predicate MayResolve(writer: Writer, user: string, c: string, s: string) {
    match writer
    case Monitor(name) => user == name
    case Checker(targets) =>
      exists t :: t in targets && t.component == c && t.sub.slug == s
                  && t.sub.monitoring.Some? && t.sub.monitoring.value.monitor == user
  }

  lemma UpdatedAdds(db: Db, id: nat, o: Outage, user: string, now: Time, fault: Fault, writer: Writer)
    requires MayResolve(writer, user, o.component, o.subComponent)
    ensures Adds(db, Updated(db, id, o, user, now, fault).0, writer)
  {
    AtomicUpdate(db, id, o, user, now, fault);
    var (after, ok) := Updated(db, id, o, user, now, fault);
    hide Updated, Adds;
    if ok {
      var e := after.audit[|db.audit|];
      if writer.Checker? {
        var t :| t in writer.targets && t.component == o.component && t.sub.slug == o.subComponent
          && t.sub.monitoring.Some? && t.sub.monitoring.value.monitor == user;
        assert ResolvedFor(writer.targets, e.before.value.row, user);
      }
      AddsOne(db, after, e, writer);
    } else {
      AddsNothing(db, after, writer);
    }
  }

  lemma {:induction false} ResolvedAdds(db: Db, found: seq<Found>, user: string, env: Env, writer: Writer,
                                        c: string, s: string)
    requires MayResolve(writer, user, c, s)
    requires forall f | f in found :: f.row.component == c && f.row.subComponent == s
    ensures Adds(db, Resolved(db, found, user, env), writer)
    decreases |found|
  {
    hide Adds, Updated, MayResolve;
    if found == [] {
      AddsNothing(db, db, writer);
    } else {
      var id, row := found[0].id, found[0].row.(end := Some(env.now));
      var next := Updated(db, id, row, user, env.now, FaultOf(env, id)).0;
      assert found[0] in found;
      UpdatedAdds(db, id, row, user, env.now, FaultOf(env, id), writer);
      ResolvedAdds(next, found[1..], user, env, writer, c, s);
      AddsMore(db, next, Resolved(db, found, user, env), writer);
    }
  }

  lemma FoundUnderKey(db: Db, c: string, s: string, src: Source, order: seq<nat>)
    ensures forall f | f in QueryOpen(db, c, s, src, order) :: f.row.component == c && f.row.subComponent == s
  {
    var ids := Listing(Open(db, c, s, src), order);
    forall f | f in Fetched(db, ids) ensures f.row.component == c && f.row.subComponent == s {
      var i :| 0 <= i < |ids| && Fetched(db, ids)[i] == f;
      assert ids[i] in Open(db, c, s, src);
    }
  }

  lemma ProcessedOneAdds(db: Db, monitor: string, st: ReportStatus, r: Reading)
    ensures Adds(db, ProcessedOne(db, monitor, st, r).0, Monitor(monitor))
  {
    var writer, c, s := Monitor(monitor), st.component, st.subComponent;
    var pinged := Pinged(db, c, s, r.env.now);
    var active := QueryOpen(pinged, c, s, CreatedBy(monitor), r.env.order);
    assert pinged.audit == db.audit;
    ProcessedOneIs(db, monitor, st, r);
    FoundUnderKey(pinged, c, s, CreatedBy(monitor), r.env.order);
    hide ProcessedOne, Adds, Created, Resolved, QueryOpen, Lookup, Pinged, MonitorOutage;
    AddsNothing(db, db, writer);
    AddsNothing(db, pinged, writer);
    ResolvedAdds(pinged, active, monitor, r.env, writer, c, s);
    AddsMore(db, pinged, Resolved(pinged, active, monitor, r.env), writer);
    var sub := Lookup(r.cfg, c, s);
    if sub.Some? {
      var o := MonitorOutage(st, monitor, r.env.now, sub.value.requiresConfirmation);
      CreatedAdds(pinged, o, st.reasons, monitor, r.env.now, r.env.writeFault, writer);
      AddsMore(db, pinged, Created(pinged, o, st.reasons, monitor, r.env.now, r.env.writeFault).0, writer);
    }
  }

  lemma {:induction false} ProcessedAdds(db: Db, monitor: string, statuses: seq<ReportStatus>,
                                         readings: seq<Reading>, i: nat)
    requires |readings| == |statuses| && i <= |statuses|
    ensures Adds(db, Processed(db, monitor, statuses, readings, i).0, Monitor(monitor))
    decreases |statuses| - i
  {
    hide ProcessedOne, Adds;
    AddsNothing(db, db, Monitor(monitor));
    if i < |statuses| {
      var (next, ok) := ProcessedOne(db, monitor, statuses[i], readings[i]);
      ProcessedOneAdds(db, monitor, statuses[i], readings[i]);
      if ok {
        ProcessedAdds(next, monitor, statuses, readings, i + 1);
        AddsMore(db, next, Processed(next, monitor, statuses, readings, i + 1).0, Monitor(monitor));
      }
    }
  }

  lemma CheckedOneAdds(db: Db, t: Target, env: Env, targets: seq<Target>)
    requires t in targets
    ensures Adds(db, CheckedOne(db, t, env), Checker(targets))
  {
    hide Adds, Created, Resolved, QueryOpen, Overdue;
    var writer := Checker(targets);
    AddsNothing(db, db, writer);
    if t.sub.monitoring.Some? {
      var c, s, user := t.component, t.sub.slug, t.sub.monitoring.value.monitor;
      var active := QueryOpen(db, c, s, DiscoveredFrom(ABSENT_SOURCE), env.order);
      FoundUnderKey(db, c, s, DiscoveredFrom(ABSENT_SOURCE), env.order);
      ResolvedAdds(db, active, user, env, writer, c, s);
      CreatedAdds(db, AbsentOutage(c, t.sub, env.now), [], ABSENT_CREATOR, env.now, env.writeFault, writer);
    }
  }

  lemma {:induction false} CheckedAdds(db: Db, targets: seq<Target>, envs: seq<Env>, k: nat)
    requires |envs| == |targets| && k <= |targets|
    ensures Adds(db, Checked(db, targets, envs, k), Checker(targets))
    decreases |targets| - k
  {
    hide CheckedOne, Adds;
    AddsNothing(db, db, Checker(targets));
    if k < |targets| {
      var next := CheckedOne(db, targets[k], envs[k]);
      CheckedOneAdds(db, targets[k], envs[k], targets);
      CheckedAdds(next, targets, envs, k + 1);
      AddsMore(db, next, Checked(next, targets, envs, k + 1), Checker(targets));
    }
  }

  /** A report's entries are creations and updates in the name of its monitor. */
  lemma ReportSigned(db: Db, e: Event)
    requires e.MonitorReport?
    ensures db.audit <= Step(db, e).audit
    ensures forall x | x in Step(db, e).audit[|db.audit|..] :: x.user == e.monitor && x.op != Delete
  {
    ProcessedAdds(db, e.monitor, e.statuses, e.readings, 0);
    hide Processed;
  }

  /** A check creates as "dashboard" and ends outages in the name of their sub-component's monitor. */
  lemma CheckSigned(db: Db, e: Event)
    requires e.AbsentCheck?
    ensures db.audit <= Step(db, e).audit
    ensures forall x | x in Step(db, e).audit[|db.audit|..] ::
              || (x.op == Create && x.user == "dashboard")
              || (x.op == Update && x.before.Some? &&
                  ResolvedFor(Targets(e.cfg.components), x.before.value.row, x.user))
  {
    var targets := Targets(e.cfg.components);
    CheckedAdds(db, targets, e.envs, 0);
    hide Checked, Targets;
  }

  /** `after` has exactly one entry more than `before`, or none. */
  predicate AddsExactly(before: seq<AuditEntry>, after: seq<AuditEntry>, op: Operation, id: nat, user: string,
                        done: bool)
  {
    if done then
      && |after| == |before| + 1 && before == after[..|before|]
      && after[|before|].op == op && after[|before|].id == id && after[|before|].user == user
    else
      after == before
  }

  /** A person's request adds one entry if it is answered Done, under the person's name and about the outage
      concerned, and none otherwise. */
  lemma CreateSigned(db: Db, e: Event)
    requires e.UserCreate?
    ensures var answer := UserCreated(db, e.cfg, e.c, e.s, e.user, e.req, e.env).1;
            AddsExactly(db.audit, Step(db, e).audit, Create, db.nextId, e.user, answer == Done)
  {
    hide Lookup, Valid, UserOutage, Rounded;
  }

  lemma PatchSigned(db: Db, e: Event)
    requires e.UserPatch?
    ensures var answer := UserPatched(db, e.cfg, e.c, e.s, e.id, e.user, e.req, e.env).1;
            AddsExactly(db.audit, Step(db, e).audit, Update, e.id, e.user, answer == Done)
  {
    hide Lookup, Valid, Patched, Rounded;
  }

  lemma DeleteSigned(db: Db, e: Event)
    requires e.UserDelete?
    ensures var answer := UserDeleted(db, e.cfg, e.c, e.s, e.id, e.user, e.env).1;
            AddsExactly(db.audit, Step(db, e).audit, Delete, e.id, e.user, answer == Done)
  {
    hide Lookup;
  }
}
